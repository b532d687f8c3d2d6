/** Worked examples of the selection loop and of the size text. */
module Scenarios {
  import opened Values
  import Decimal
  import Ratio
  import Formats

  /** A second record with an already offered key adds nothing, and neither
      does a record that is neither mp4 nor mp3. */
  lemma DuplicateThenOther(a: Formats.Format, b: Formats.Format, c: Formats.Format)
    requires Formats.IsVideoCandidate(a) && a.ext == b.ext
    requires Formats.ResolutionKey(a) == Formats.ResolutionKey(b) && b.filesize != 0
    requires c.ext != "mp4" && c.ext != "mp3"
    ensures Formats.Normalize([a, b, c]) == [Formats.VideoOption(a)]
  {
    Formats.NormalizeSnoc([], a);
    assert [] + [a] == [a];
    Formats.NormalizeSnoc([a], b);
    assert Formats.KeyTaken([a], Formats.ResolutionKey(b));
    assert [a] + [b] == [a, b];
    Formats.NormalizeSnoc([a, b], c);
    assert [a, b] + [c] == [a, b, c];
  }

  /** Two 1920x1080 mp4 records and an m4a record: only the first mp4 is offered. */
  lemma DuplicateResolutionFirstWins()
    ensures var fs := [
        Formats.Format("137", "mp4", Some(1920), Some(1080), 10485760, 0),
        Formats.Format("138", "mp4", Some(1920), Some(1080), 20971520, 0),
        Formats.Format("140", "m4a", None, None, 3145728, 0)];
      Formats.Normalize(fs) == [Formats.MediaOption("137", "1080p (HD)", "1920x1080", "16:9", "mp4", Formats.Exact(10485760))]
  {
    var a := Formats.Format("137", "mp4", Some(1920), Some(1080), 10485760, 0);
    var b := Formats.Format("138", "mp4", Some(1920), Some(1080), 20971520, 0);
    var c := Formats.Format("140", "m4a", None, None, 3145728, 0);
    FullHd(a);
    FullHd(b);
    DuplicateThenOther(a, b, c);
  }

  lemma FullHd(f: Formats.Format)
    requires f.width == Some(1920) && f.height == Some(1080)
    ensures Formats.ResolutionKey(f) == "1920x1080"
    ensures Ratio.AspectRatio(f.width, f.height) == "16:9"
  {
    assert Decimal.NatToString(1920) == "1920" && Decimal.NatToString(1080) == "1080";
    Ratio.FullHdIsSixteenByNine();
  }

  lemma ExactSizeText()
    ensures Formats.SizeText(Formats.Exact(1048576)) == "1.00 MB"
  {
  }

  lemma ApproxSizeText()
    ensures Formats.SizeText(Formats.Approx(1572864)) == "~1.50 MB"
  {
  }
}
