/** What the format-selection loop guarantees about the options it offers. */
module FormatProperties {
  import Ratio
  import opened Formats

  /** For each offered option, the index of the record that produced it. */
  ghost function Sources(fs: seq<Format>): seq<nat>
    decreases |fs|
  {
    if fs == [] then []
    else
      var before := fs[..|fs| - 1];
      Sources(before) + seq(|Contribution(before, fs[|fs| - 1])|, _ => |fs| - 1)
  }

  /** Record j of fs is the first of its kind: the first video candidate with
      its key, producing the video option o, or the first audio candidate,
      producing the audio option o. */
  ghost predicate FirstOfKind(fs: seq<Format>, j: nat, o: MediaOption)
    requires j < |fs|
  {
    || (IsVideoCandidate(fs[j]) && !KeyTaken(fs[..j], ResolutionKey(fs[j])) && o == VideoOption(fs[j]))
    || (IsAudioCandidate(fs[j]) && !AudioTaken(fs[..j]) && o == AudioOption(fs[j]))
  }

  lemma ContributionAtMostOne(before: seq<Format>, f: Format)
    ensures |Contribution(before, f)| <= 1
  {
  }

  /** Every option comes from an earlier-unseen candidate record, and the
      options appear in the order of their records in the input. */
  lemma {:induction false} NormalizeProvenance(fs: seq<Format>)
    ensures |Sources(fs)| == |Normalize(fs)|
    ensures forall k :: 0 <= k < |Sources(fs)| ==>
      Sources(fs)[k] < |fs| && FirstOfKind(fs, Sources(fs)[k], Normalize(fs)[k])
    ensures forall k1, k2 :: 0 <= k1 < k2 < |Sources(fs)| ==> Sources(fs)[k1] < Sources(fs)[k2]
    decreases |fs|
  {
    if fs != [] {
      var n := |fs| - 1;
      var before, f := fs[..n], fs[n];
      NormalizeProvenance(before);
      ContributionAtMostOne(before, f);
      var src, out := Sources(fs), Normalize(fs);
      assert src == Sources(before) + seq(|Contribution(before, f)|, _ => n);
      assert out == Normalize(before) + Contribution(before, f);
      forall k | 0 <= k < |src|
        ensures src[k] < |fs| && FirstOfKind(fs, src[k], out[k])
      {
        if k < |Sources(before)| {
          var j := src[k];
          assert j == Sources(before)[k] && j < n;
          assert fs[..j] == before[..j] && fs[j] == before[j];
          assert out[k] == Normalize(before)[k];
          assert FirstOfKind(before, j, out[k]);
        } else {
          assert src[k] == n && fs[..n] == before;
          assert out[k] == Contribution(before, f)[0];
        }
      }
    }
  }

  /** First seen wins: a video option carries the `format_id` of the earliest
      record that passes the video filter with that resolution key. */
  lemma VideoFirstSeen(fs: seq<Format>, k: nat)
    requires k < |Normalize(fs)| && IsVideo(Normalize(fs)[k])
    ensures |Sources(fs)| == |Normalize(fs)|
    ensures var j := Sources(fs)[k];
      && j < |fs|
      && IsVideoCandidate(fs[j])
      && Normalize(fs)[k] == VideoOption(fs[j])
      && Normalize(fs)[k].itag == fs[j].formatId
      && Normalize(fs)[k].resolution == ResolutionKey(fs[j])
      && forall i :: 0 <= i < j ==> !(IsVideoCandidate(fs[i]) && ResolutionKey(fs[i]) == ResolutionKey(fs[j]))
  {
    NormalizeProvenance(fs);
    var j := Sources(fs)[k];
    assert FirstOfKind(fs, j, Normalize(fs)[k]);
    assert forall i :: 0 <= i < j ==> fs[..j][i] == fs[i];
  }

  /** First seen wins for audio: the audio option carries the `format_id` of
      the earliest sized mp3 record. */
  lemma AudioFirstSeen(fs: seq<Format>, k: nat)
    requires k < |Normalize(fs)| && IsAudio(Normalize(fs)[k])
    ensures |Sources(fs)| == |Normalize(fs)|
    ensures var j := Sources(fs)[k];
      && j < |fs|
      && IsAudioCandidate(fs[j])
      && Normalize(fs)[k] == AudioOption(fs[j])
      && Normalize(fs)[k].itag == fs[j].formatId
      && forall i :: 0 <= i < j ==> !IsAudioCandidate(fs[i])
  {
    NormalizeProvenance(fs);
    var j := Sources(fs)[k];
    assert FirstOfKind(fs, j, Normalize(fs)[k]);
    assert forall i :: 0 <= i < j ==> fs[..j][i] == fs[i];
  }

  /** No two video options share a resolution key, whatever duplicates the input holds. */
  lemma UniqueVideoResolutions(fs: seq<Format>)
    ensures forall k1, k2 ::
      0 <= k1 < k2 < |Normalize(fs)| && IsVideo(Normalize(fs)[k1]) && IsVideo(Normalize(fs)[k2]) ==>
        Normalize(fs)[k1].resolution != Normalize(fs)[k2].resolution
  {
    var out := Normalize(fs);
    NormalizeProvenance(fs);
    forall k1, k2 | 0 <= k1 < k2 < |out| && IsVideo(out[k1]) && IsVideo(out[k2])
      ensures out[k1].resolution != out[k2].resolution
    {
      VideoFirstSeen(fs, k1);
      VideoFirstSeen(fs, k2);
    }
  }

  /** At most one audio option is offered. */
  lemma AtMostOneAudio(fs: seq<Format>)
    ensures forall k1, k2 :: 0 <= k1 < k2 < |Normalize(fs)| ==> !(IsAudio(Normalize(fs)[k1]) && IsAudio(Normalize(fs)[k2]))
  {
    var out := Normalize(fs);
    NormalizeProvenance(fs);
    forall k1, k2 | 0 <= k1 < k2 < |out| && IsAudio(out[k1]) && IsAudio(out[k2])
      ensures false
    {
      AudioFirstSeen(fs, k1);
      AudioFirstSeen(fs, k2);
    }
  }

  /** Every option is built from its record as the handler builds it:
      a video option is an mp4 with an allowed key, the table's label and a
      known size; the audio option has the fixed audio fields; neither
      reports "N/A" as its size. */
  lemma OptionFields(fs: seq<Format>, k: nat)
    requires k < |Normalize(fs)|
    ensures |Sources(fs)| == |Normalize(fs)| && Sources(fs)[k] < |fs|
    ensures var o, f := Normalize(fs)[k], fs[Sources(fs)[k]];
      && o.itag == f.formatId
      && (IsVideo(o) || IsAudio(o))
      && (IsVideo(o) ==>
            && f.ext == "mp4"
            && o.resolution in AllowedResolutions
            && o.resolution == ResolutionKey(f)
            && o.qualityLabel == AllowedResolutions[o.resolution]
            && o.aspectRatio == Ratio.AspectRatio(f.width, f.height))
      && (IsAudio(o) ==>
            && f.ext == "mp3"
            && o.qualityLabel == "Audio (MP3)" && o.resolution == "audio" && o.aspectRatio == "N/A")
      && o.size != SizeNA
      && o.size == SizeOf(f)
      && (o.size.Exact? <==> f.filesize != 0)
  {
    NormalizeProvenance(fs);
    assert FirstOfKind(fs, Sources(fs)[k], Normalize(fs)[k]);
  }

  /** Resolution keys of the video options offered. */
  ghost function VideoResolutions(out: seq<MediaOption>): set<string> {
    set k | 0 <= k < |out| && IsVideo(out[k]) :: out[k].resolution
  }

  ghost predicate HasAudio(out: seq<MediaOption>) {
    exists k :: 0 <= k < |out| && IsAudio(out[k])
  }

  lemma VideoResolutionsConcat(a: seq<MediaOption>, b: seq<MediaOption>)
    ensures VideoResolutions(a + b) == VideoResolutions(a) + VideoResolutions(b)
  {
    var out := a + b;
    forall key | key in VideoResolutions(out)
      ensures key in VideoResolutions(a) + VideoResolutions(b)
    {
      var k :| 0 <= k < |out| && IsVideo(out[k]) && out[k].resolution == key;
      if k >= |a| {
        assert b[k - |a|] == out[k];
      }
    }
    forall key | key in VideoResolutions(a) + VideoResolutions(b)
      ensures key in VideoResolutions(out)
    {
      if key in VideoResolutions(a) {
        var k :| 0 <= k < |a| && IsVideo(a[k]) && a[k].resolution == key;
        assert out[k] == a[k];
      } else {
        var k :| 0 <= k < |b| && IsVideo(b[k]) && b[k].resolution == key;
        assert out[|a| + k] == b[k];
      }
    }
  }

  lemma HasAudioConcat(a: seq<MediaOption>, b: seq<MediaOption>)
    ensures HasAudio(a + b) <==> HasAudio(a) || HasAudio(b)
  {
    var out := a + b;
    if HasAudio(out) {
      var k :| 0 <= k < |out| && IsAudio(out[k]);
      if k >= |a| {
        assert IsAudio(b[k - |a|]);
      } else {
        assert IsAudio(a[k]);
      }
    }
    if HasAudio(a) {
      var k :| 0 <= k < |a| && IsAudio(a[k]);
      assert out[k] == a[k];
    }
    if HasAudio(b) {
      var k :| 0 <= k < |b| && IsAudio(b[k]);
      assert out[|a| + k] == b[k];
    }
  }

  /** What one record adds, in terms of the keys and the audio flag. */
  lemma ContributionEffect(before: seq<Format>, f: Format)
    ensures var c := Contribution(before, f);
      && VideoResolutions(c) == (if IsVideoCandidate(f) && !KeyTaken(before, ResolutionKey(f)) then {ResolutionKey(f)} else {})
      && (HasAudio(c) <==> IsAudioCandidate(f) && !AudioTaken(before))
      && |c| == (if IsVideoCandidate(f) && !KeyTaken(before, ResolutionKey(f)) then 1 else 0)
          + (if IsAudioCandidate(f) && !AudioTaken(before) then 1 else 0)
  {
    var c := Contribution(before, f);
    if IsVideoCandidate(f) && !KeyTaken(before, ResolutionKey(f)) {
      assert c == [VideoOption(f)];
      assert IsVideo(c[0]) && c[0].resolution == ResolutionKey(f);
      assert VideoResolutions(c) == {ResolutionKey(f)};
    } else if IsAudioCandidate(f) && !AudioTaken(before) {
      assert c == [AudioOption(f)];
      assert IsAudio(c[0]);
    } else {
      assert c == [];
    }
  }

  /** Nothing is dropped: every allowed key that some video candidate has is
      offered, and an audio option is offered exactly when a sized mp3 record
      exists. */
  lemma {:induction false} NormalizeComplete(fs: seq<Format>)
    ensures VideoResolutions(Normalize(fs)) == CandidateKeys(fs)
    ensures HasAudio(Normalize(fs)) <==> AudioTaken(fs)
    decreases |fs|
  {
    if fs != [] {
      var n := |fs| - 1;
      var before, f := fs[..n], fs[n];
      assert fs == before + [f];
      NormalizeComplete(before);
      NormalizeSnoc(before, f);
      CandidateKeysSnoc(before, f);
      AudioTakenSnoc(before, f);
      CandidateKeysTaken(before, ResolutionKey(f));
      var c := Contribution(before, f);
      VideoResolutionsConcat(Normalize(before), c);
      HasAudioConcat(Normalize(before), c);
      ContributionEffect(before, f);
    }
  }

  /** The option count is the number of distinct candidate keys, plus one
      when a sized mp3 record exists. */
  lemma {:induction false} NormalizeCount(fs: seq<Format>)
    ensures |Normalize(fs)| == |CandidateKeys(fs)| + (if AudioTaken(fs) then 1 else 0)
    decreases |fs|
  {
    if fs != [] {
      var n := |fs| - 1;
      var before, f := fs[..n], fs[n];
      assert fs == before + [f];
      NormalizeCount(before);
      NormalizeSnoc(before, f);
      CandidateKeysSnoc(before, f);
      AudioTakenSnoc(before, f);
      CandidateKeysTaken(before, ResolutionKey(f));
      ContributionEffect(before, f);
      AddKeyCount(CandidateKeys(before), ResolutionKey(f), IsVideoCandidate(f));
    }
  }

  lemma AddKeyCount(keys: set<string>, key: string, add: bool)
    ensures |keys + (if add then {key} else {})| == |keys| + (if add && key !in keys then 1 else 0)
  {
    if add && key in keys {
      assert keys + {key} == keys;
    }
  }

  lemma AllowedKeyCount()
    ensures |AllowedResolutions.Keys| == 8
  {
  }

  /** Each record contributes at most one option, and at most eight video
      options and one audio option are offered: never more than nine. */
  lemma {:induction false} NormalizeBounded(fs: seq<Format>)
    ensures |Normalize(fs)| <= |fs|
    ensures |Normalize(fs)| <= 9
  {
    NormalizeProvenance(fs);
    SourcesBound(Sources(fs), |fs|);
    NormalizeCount(fs);
    CandidateKeysBounded(fs);
  }

  lemma CandidateKeysBounded(fs: seq<Format>)
    ensures |CandidateKeys(fs)| <= 8
  {
    var taken, all := CandidateKeys(fs), AllowedResolutions.Keys;
    assert taken <= all;
    assert all == taken + (all - taken);
    AllowedKeyCount();
  }

  /** A strictly increasing sequence of indices below n has at most n elements. */
  lemma {:induction false} SourcesBound(src: seq<nat>, n: nat)
    requires forall k :: 0 <= k < |src| ==> src[k] < n
    requires forall k1, k2 :: 0 <= k1 < k2 < |src| ==> src[k1] < src[k2]
    ensures |src| <= n
    decreases n
  {
    if src != [] {
      var last := src[|src| - 1];
      SourcesBound(src[..|src| - 1], last);
    }
  }
}
