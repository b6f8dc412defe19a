/** The two download endpoints: check the URL, run the downloader tool, then report the
    first `.mp3` file in the downloads folder. Running the tool and listing the folder are
    inputs: how the process exited and what the folder held afterwards. */
module Download {
  import opened Python

  /** The folder both tools write into. */
  const DownloadFolder: string := "downloads"

  /** The texts of the JSON replies, and the route that serves a downloaded file. */
  const UrlMissing: string := "No se proporcionó una URL"
  const DownloadFailed: string := "Error al descargar la canción"
  const FileMissing: string := "No se encontró el archivo descargado"
  const Completed: string := "Descarga completada"
  const FileRoute: string := "/descargar/"

  /** How the downloader process ended: with an exit code, or not at all because the
      executable was not found (`FileNotFoundError`, which no handler catches). */
  datatype Run = Exited(code: int) | NotFound

  /** The JSON body of a handled request. */
  datatype Body = Error(error: string) | Done(message: string, fileUrl: string)

  /** The reply: a JSON body with a status, or an exception the view does not catch. */
  datatype Reply = Json(status: int, body: Body) | Uncaught(exc: Exc)

  /** What a request did: the command line it ran, if any, and the reply. */
  datatype Handled = Handled(invoked: Option<seq<string>>, reply: Reply)

  predicate EndsWith(s: string, suffix: string)
  {
    |suffix| <= |s| && s[|s| - |suffix|..] == suffix
  }

  /** The entries of a folder listing that end in ".mp3", in listing order. */
  function Mp3Files(listing: seq<string>): (files: seq<string>)
    ensures forall f :: f in files <==> f in listing && EndsWith(f, ".mp3")
    ensures |files| <= |listing|
  {
    if listing == [] then []
    else (if EndsWith(listing[0], ".mp3") then [listing[0]] else []) + Mp3Files(listing[1..])
  }

  /** The file the endpoints report is the earliest listing entry ending in ".mp3". */
  lemma {:induction false} FirstMp3IsEarliest(listing: seq<string>)
    requires Mp3Files(listing) != []
    ensures exists i :: 0 <= i < |listing| && listing[i] == Mp3Files(listing)[0] &&
                        EndsWith(listing[i], ".mp3") &&
                        forall j :: 0 <= j < i ==> !EndsWith(listing[j], ".mp3")
  {
    if EndsWith(listing[0], ".mp3") {
    } else {
      assert Mp3Files(listing) == Mp3Files(listing[1..]);
      FirstMp3IsEarliest(listing[1..]);
      var i :| 0 <= i < |listing[1..]| && listing[1..][i] == Mp3Files(listing[1..])[0] &&
               EndsWith(listing[1..][i], ".mp3") &&
               forall j :: 0 <= j < i ==> !EndsWith(listing[1..][j], ".mp3");
      assert listing[i + 1] == Mp3Files(listing)[0];
      assert forall j :: 0 <= j < i + 1 ==> !EndsWith(listing[j], ".mp3") by {
        forall j | 0 <= j < i + 1
          ensures !EndsWith(listing[j], ".mp3")
        {
          if j > 0 {
            assert listing[j] == listing[1..][j - 1];
          }
        }
      }
    }
  }

  /** A listing without any ".mp3" entry yields nothing to report. */
  lemma {:induction false} NoMp3Files(listing: seq<string>)
    requires forall k :: 0 <= k < |listing| ==> !EndsWith(listing[k], ".mp3")
    ensures Mp3Files(listing) == []
  {
    if listing != [] {
      NoMp3Files(listing[1..]);
    }
  }

  /** Everything after the tool ran: exit status, then the folder listing (`None` when
      `os.listdir` raises), then the first ".mp3" entry. */
  function AfterRun(run: Run, listing: Option<seq<string>>): (reply: Reply)
    // a missing executable, or a listing that raises after a clean exit, is not caught
    ensures reply.Uncaught? <==> run.NotFound? || (run == Exited(0) && listing.None?)
    ensures run.Exited? && run.code != 0 ==> reply == Json(500, Error(DownloadFailed))
    ensures reply.Json? && reply.status == 200 <==>
            run == Exited(0) && listing.Some? && Mp3Files(listing.value) != []
    ensures reply.Json? && reply.status == 200 ==>
            reply.body == Done(Completed, FileRoute + Mp3Files(listing.value)[0])
    ensures run == Exited(0) && listing.Some? && Mp3Files(listing.value) == [] ==>
            reply == Json(500, Error(FileMissing))
  {
    match run
    case NotFound => Uncaught(OtherException("FileNotFoundError"))
    case Exited(code) =>
      if code != 0 then Json(500, Error(DownloadFailed))
      else if listing.None? then Uncaught(OtherException("FileNotFoundError"))
      else
        var files := Mp3Files(listing.value);
        if files == [] then Json(500, Error(FileMissing))
        else Json(200, Done(Completed, FileRoute + files[0]))
  }

  /** The command line of `download_spdl`. */
  function SpotdlCommand(url: string): seq<string>
  {
    ["spotdl", url, "--output", DownloadFolder]
  }

  /** The command line of `download_ytdl`, with the configured ffmpeg location. */
  function YtdlCommand(url: string, ffmpegPath: string): seq<string>
  {
    ["yt-dlp", "-P", DownloadFolder, "-x", "--audio-format", "mp3", "--ffmpeg-location", ffmpegPath, url]
  }

  /** `download_spdl()`: `url` is `data.get("url")`. */
  function DownloadSpdl(url: Option<string>, run: Run, listing: Option<seq<string>>): (h: Handled)
    ensures !TruthyStr(url) ==> h == Handled(None, Json(400, Error(UrlMissing)))
    ensures TruthyStr(url) ==> h.invoked == Some(SpotdlCommand(url.value)) && url.value in h.invoked.value
    ensures TruthyStr(url) ==> h.reply == AfterRun(run, listing)
  {
    if !TruthyStr(url) then Handled(None, Json(400, Error(UrlMissing)))
    else Handled(Some(SpotdlCommand(url.value)), AfterRun(run, listing))
  }

  /** `download_ytdl()`: `url` is `data.get("url")`. */
  function DownloadYtdl(url: Option<string>, run: Run, listing: Option<seq<string>>, ffmpegPath: string): (h: Handled)
    ensures !TruthyStr(url) ==> h == Handled(None, Json(400, Error(UrlMissing)))
    ensures TruthyStr(url) ==> h.invoked == Some(YtdlCommand(url.value, ffmpegPath)) && h.invoked.value[|h.invoked.value| - 1] == url.value
    ensures TruthyStr(url) ==> h.reply == AfterRun(run, listing)
  {
    if !TruthyStr(url) then Handled(None, Json(400, Error(UrlMissing)))
    else Handled(Some(YtdlCommand(url.value, ffmpegPath)), AfterRun(run, listing))
  }

  /** The two endpoints differ only in the tool they run: on the same process outcome and
      the same listing they reply alike. */
  lemma EndpointsReplyAlike(url: Option<string>, run: Run, listing: Option<seq<string>>, ffmpegPath: string)
    ensures DownloadSpdl(url, run, listing).reply == DownloadYtdl(url, run, listing, ffmpegPath).reply
    ensures DownloadSpdl(url, run, listing).invoked.None? <==> DownloadYtdl(url, run, listing, ffmpegPath).invoked.None?
  {
  }

  /** A successful download reports a file the folder holds, as a link under /descargar/. */
  lemma {:induction false} ReportedFileIsInFolder(url: Option<string>, run: Run, listing: Option<seq<string>>)
    requires DownloadSpdl(url, run, listing).reply.Json?
    requires DownloadSpdl(url, run, listing).reply.status == 200
    ensures var b := DownloadSpdl(url, run, listing).reply.body;
      exists f :: f in listing.value && EndsWith(f, ".mp3") && b.fileUrl == FileRoute + f
  {
    var f := Mp3Files(listing.value)[0];
    assert f in Mp3Files(listing.value);
  }
}
