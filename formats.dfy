/** The format-selection loop of the `/video-info` handler (server.js lines
    70-115): yt-dlp's format records in, the offered download options out. */
module Formats {
  import opened Values
  import Decimal
  import Ratio

  /** One entry of yt-dlp's `formats` list. A missing or falsy byte count is 0. */
  datatype Format = Format(
    formatId: string,
    ext: string,
    width: Option<nat>,
    height: Option<nat>,
    filesize: nat,
    filesizeApprox: nat)

  /** Which byte count the size text is rendered from. */
  datatype Size = Exact(bytes: nat) | Approx(bytes: nat) | SizeNA

  /** One offered option, with the fields of the JSON object the handler pushes. */
  datatype MediaOption = MediaOption(
    itag: string,
    qualityLabel: string,
    resolution: string,
    aspectRatio: string,
    container: string,
    size: Size)

  /** The eight resolutions offered as video, keyed by `"{width}x{height}"`. */
  const AllowedResolutions: map<string, string> := map[
    "3840x2160" := "2160p (4K)",
    "2560x1440" := "1440p (2K)",
    "1920x1080" := "1080p (HD)",
    "1280x720" := "720p (HD)",
    "854x480" := "480p (SD)",
    "640x360" := "360p (SD)",
    "426x240" := "240p (SD)",
    "256x144" := "144p (SD)"
  ]

  /** A dimension interpolated into a template string; yt-dlp writes null
      for a missing one. */
  function DimensionText(x: Option<nat>): string {
    match x
    case Some(n) => Decimal.NatToString(n)
    case None => "null"
  }

  function ResolutionKey(f: Format): string {
    DimensionText(f.width) + "x" + DimensionText(f.height)
  }

  predicate HasFilesize(f: Format) {
    f.filesize != 0 || f.filesizeApprox != 0
  }

  /** The size the option reports: exact if known, else approximate. */
  function SizeOf(f: Format): (s: Size)
    ensures s == SizeNA <==> !HasFilesize(f)
    ensures s.Exact? <==> f.filesize != 0
    ensures s.Exact? ==> s.bytes == f.filesize
    ensures s.Approx? ==> s.bytes == f.filesizeApprox
  {
    if f.filesize != 0 then Exact(f.filesize)
    else if f.filesizeApprox != 0 then Approx(f.filesizeApprox)
    else SizeNA
  }

  /** The size text: "X.XX MB", "~X.XX MB" or "N/A". */
  function SizeText(s: Size): (t: string)
    ensures t == "N/A" <==> s.SizeNA?
    ensures s.Exact? ==> t == Decimal.Megabytes(s.bytes) + " MB"
    ensures s.Approx? ==> t == "~" + Decimal.Megabytes(s.bytes) + " MB"
  {
    match s
    case Exact(n) => Decimal.Megabytes(n) + " MB"
    case Approx(n) => "~" + Decimal.Megabytes(n) + " MB"
    case SizeNA => "N/A"
  }

  /** A record that passes the video filter (everything but the seen test). */
  predicate IsVideoCandidate(f: Format) {
    f.ext == "mp4" && ResolutionKey(f) in AllowedResolutions && HasFilesize(f)
  }

  /** A record that passes the audio filter (everything but the flag test). */
  predicate IsAudioCandidate(f: Format) {
    f.ext == "mp3" && HasFilesize(f)
  }

  /** The object pushed for a video record (lines 91-98). */
  function VideoOption(f: Format): (o: MediaOption)
    requires ResolutionKey(f) in AllowedResolutions
    ensures IsVideo(o) && !IsAudio(o)
    ensures o.itag == f.formatId && o.resolution == ResolutionKey(f)
    ensures o.qualityLabel == AllowedResolutions[o.resolution]
    ensures o.aspectRatio == Ratio.AspectRatio(f.width, f.height) && o.size == SizeOf(f)
  {
    var key := ResolutionKey(f);
    MediaOption(f.formatId, AllowedResolutions[key], key, Ratio.AspectRatio(f.width, f.height), "mp4", SizeOf(f))
  }

  /** The object pushed for the audio record (lines 104-111). */
  function AudioOption(f: Format): (o: MediaOption)
    ensures IsAudio(o) && !IsVideo(o)
    ensures o.itag == f.formatId && o.size == SizeOf(f)
    ensures o.qualityLabel == "Audio (MP3)" && o.resolution == "audio" && o.aspectRatio == "N/A"
  {
    MediaOption(f.formatId, "Audio (MP3)", "audio", "N/A", "mp3", SizeOf(f))
  }

  predicate IsVideo(o: MediaOption) {
    o.container == "mp4"
  }

  predicate IsAudio(o: MediaOption) {
    o.container == "mp3"
  }

  /** Some record of fs already passed the video filter with this key. */
  ghost predicate KeyTaken(fs: seq<Format>, key: string) {
    exists j :: 0 <= j < |fs| && IsVideoCandidate(fs[j]) && ResolutionKey(fs[j]) == key
  }

  /** Some record of fs already passed the audio filter. */
  ghost predicate AudioTaken(fs: seq<Format>) {
    exists j :: 0 <= j < |fs| && IsAudioCandidate(fs[j])
  }

  /** What record f adds when the records before it are `before`: a video
      option for the first record of each allowed key, an audio option for the
      first sized mp3. */
  ghost function Contribution(before: seq<Format>, f: Format): seq<MediaOption> {
    (if IsVideoCandidate(f) && !KeyTaken(before, ResolutionKey(f)) then [VideoOption(f)] else [])
    + (if IsAudioCandidate(f) && !AudioTaken(before) then [AudioOption(f)] else [])
  }

  /** The options the handler offers for fs: each record's contribution, in input order. */
  ghost function Normalize(fs: seq<Format>): seq<MediaOption>
    decreases |fs|
  {
    if fs == [] then []
    else Normalize(fs[..|fs| - 1]) + Contribution(fs[..|fs| - 1], fs[|fs| - 1])
  }

  /** Keys of the records that pass the video filter: the `seen` set. */
  ghost function CandidateKeys(fs: seq<Format>): set<string> {
    set j | 0 <= j < |fs| && IsVideoCandidate(fs[j]) :: ResolutionKey(fs[j])
  }

  lemma CandidateKeysTaken(fs: seq<Format>, key: string)
    ensures key in CandidateKeys(fs) <==> KeyTaken(fs, key)
  {
  }

  lemma CandidateKeysSnoc(fs: seq<Format>, f: Format)
    ensures CandidateKeys(fs + [f]) == CandidateKeys(fs) + (if IsVideoCandidate(f) then {ResolutionKey(f)} else {})
  {
    var gs := fs + [f];
    forall key
      ensures key in CandidateKeys(gs) <==> key in CandidateKeys(fs) || (IsVideoCandidate(f) && key == ResolutionKey(f))
    {
      KeyTakenSnoc(fs, f, key);
      if key in CandidateKeys(gs) {
        var j :| 0 <= j < |gs| && IsVideoCandidate(gs[j]) && ResolutionKey(gs[j]) == key;
      }
      if key in CandidateKeys(fs) {
        var j :| 0 <= j < |fs| && IsVideoCandidate(fs[j]) && ResolutionKey(fs[j]) == key;
        assert gs[j] == fs[j];
      }
      if IsVideoCandidate(f) && key == ResolutionKey(f) {
        assert gs[|fs|] == f;
      }
    }
  }

  lemma KeyTakenSnoc(fs: seq<Format>, f: Format, key: string)
    ensures KeyTaken(fs + [f], key) <==> KeyTaken(fs, key) || (IsVideoCandidate(f) && ResolutionKey(f) == key)
  {
    var gs := fs + [f];
    if KeyTaken(gs, key) {
      var j :| 0 <= j < |gs| && IsVideoCandidate(gs[j]) && ResolutionKey(gs[j]) == key;
      if j < |fs| {
        assert gs[j] == fs[j];
      }
    }
    if KeyTaken(fs, key) {
      var j :| 0 <= j < |fs| && IsVideoCandidate(fs[j]) && ResolutionKey(fs[j]) == key;
      assert gs[j] == fs[j];
    }
    if IsVideoCandidate(f) && ResolutionKey(f) == key {
      assert gs[|fs|] == f;
    }
  }

  lemma AudioTakenSnoc(fs: seq<Format>, f: Format)
    ensures AudioTaken(fs + [f]) <==> AudioTaken(fs) || IsAudioCandidate(f)
  {
    var gs := fs + [f];
    if AudioTaken(gs) {
      var j :| 0 <= j < |gs| && IsAudioCandidate(gs[j]);
      if j < |fs| {
        assert gs[j] == fs[j];
      }
    }
    if AudioTaken(fs) {
      var j :| 0 <= j < |fs| && IsAudioCandidate(fs[j]);
      assert gs[j] == fs[j];
    }
    if IsAudioCandidate(f) {
      assert gs[|fs|] == f;
    }
  }

  lemma NormalizeSnoc(fs: seq<Format>, f: Format)
    ensures Normalize(fs + [f]) == Normalize(fs) + Contribution(fs, f)
  {
    assert (fs + [f])[..|fs|] == fs;
  }

  /** One turn of the selection loop, in terms of the loop's own state. */
  lemma SelectStep(before: seq<Format>, f: Format, options: seq<MediaOption>, seen: set<string>, mp3Added: bool)
    requires options == Normalize(before)
    requires seen == CandidateKeys(before)
    requires mp3Added <==> AudioTaken(before)
    ensures var video := IsVideoCandidate(f) && ResolutionKey(f) !in seen;
      var audio := !mp3Added && IsAudioCandidate(f);
      && Normalize(before + [f]) == options + (if video then [VideoOption(f)] else []) + (if audio then [AudioOption(f)] else [])
      && CandidateKeys(before + [f]) == (if video then seen + {ResolutionKey(f)} else seen)
      && (AudioTaken(before + [f]) <==> mp3Added || audio)
  {
    NormalizeSnoc(before, f);
    AudioTakenSnoc(before, f);
    CandidateKeysSnoc(before, f);
    CandidateKeysTaken(before, ResolutionKey(f));
    if IsVideoCandidate(f) && ResolutionKey(f) in seen {
      assert seen + {ResolutionKey(f)} == seen;
    }
  }

  /** The loop of server.js lines 81-115, with its `seen` set and `mp3Added` flag. */
  method SelectFormats(formats: seq<Format>) returns (options: seq<MediaOption>)
    ensures options == Normalize(formats)
  {
    var seen: set<string> := {};
    var mp3Added := false;
    options := [];
    for i := 0 to |formats|
      invariant options == Normalize(formats[..i])
      invariant seen == CandidateKeys(formats[..i])
      invariant mp3Added <==> AudioTaken(formats[..i])
    {
      var f := formats[i];
      var resKey := ResolutionKey(f);
      var hasFilesize := f.filesize != 0 || f.filesizeApprox != 0;
      assert formats[..i + 1] == formats[..i] + [f];
      SelectStep(formats[..i], f, options, seen, mp3Added);
      if f.ext == "mp4" && resKey in AllowedResolutions && hasFilesize && resKey !in seen {
        options := options + [VideoOption(f)];
        seen := seen + {resKey};
      }
      if !mp3Added && f.ext == "mp3" && hasFilesize {
        options := options + [AudioOption(f)];
        mp3Added := true;
      }
    }
    assert formats[..|formats|] == formats;
  }
}
