/** The resolution key `"{width}x{height}"` and the allow-list: what an
    allowed key says about the record's dimensions, its aspect ratio and the
    label `getQualityLabel` would give it. */
module ResolutionKeys {
  import opened Values
  import Decimal
  import Ratio
  import Quality
  import opened Formats

  predicate NoX(s: string) {
    forall i :: 0 <= i < |s| ==> s[i] != 'x'
  }

  lemma DimensionTextNoX(x: Option<nat>)
    ensures NoX(DimensionText(x))
  {
  }

  /** A separator that occurs in neither left part splits both strings at the same place. */
  lemma SplitAtSeparator(a: string, b: string, c: string, d: string)
    requires NoX(a) && NoX(c)
    requires a + "x" + b == c + "x" + d
    ensures a == c && b == d
  {
    var s := a + "x" + b;
    assert s[|a|] == 'x' && (c + "x" + d)[|c|] == 'x';
    assert a == s[..|a|] && c == s[..|c|];
    assert b == s[|a| + 1..] && d == s[|c| + 1..];
  }

  lemma DimensionTextInjective(x: Option<nat>, y: Option<nat>)
    requires DimensionText(x) == DimensionText(y)
    ensures x == y
  {
    if x.Some? && y.Some? {
      Decimal.NatToStringInjective(x.value, y.value);
    }
  }

  /** Two records have the same key exactly when they have the same dimensions,
      so deduplicating keys deduplicates width and height. */
  lemma ResolutionKeyInjective(f: Format, g: Format)
    ensures ResolutionKey(f) == ResolutionKey(g) <==> f.width == g.width && f.height == g.height
  {
    if ResolutionKey(f) == ResolutionKey(g) {
      DimensionTextNoX(f.width);
      DimensionTextNoX(g.width);
      SplitAtSeparator(DimensionText(f.width), DimensionText(f.height), DimensionText(g.width), DimensionText(g.height));
      DimensionTextInjective(f.width, g.width);
      DimensionTextInjective(f.height, g.height);
    }
  }

  /** The record has dimensions w x h. */
  predicate HasDimensions(f: Format, w: nat, h: nat) {
    f.width == Some(w) && f.height == Some(h)
  }

  /** What a row of the allow-list fixes about a record with its key:
      the dimensions and getQualityLabel's label for its height. */
  predicate RowFacts(f: Format, w: nat, h: nat, qualityLabel: string) {
    HasDimensions(f, w, h) && Quality.QualityLabel(f.height) == qualityLabel
  }

  /** A record whose key is the rendering of w and h has those dimensions. */
  lemma KeyRow(f: Format, w: nat, h: nat, qualityLabel: string)
    requires ResolutionKey(f) == Decimal.NatToString(w) + "x" + Decimal.NatToString(h)
    requires Quality.QualityLabel(Some(h)) == qualityLabel
    ensures RowFacts(f, w, h, qualityLabel)
  {
    ResolutionKeyInjective(f, Format("", "", Some(w), Some(h), 0, 0));
  }

  // The eight rows of the table: each checks only how its two numbers render.

  lemma Row3840x2160(f: Format)
    requires ResolutionKey(f) == "3840x2160"
    ensures RowFacts(f, 3840, 2160, "2160p (4K)")
  {
    assert Decimal.NatToString(3840) == "3840" && Decimal.NatToString(2160) == "2160";
    KeyRow(f, 3840, 2160, "2160p (4K)");
  }

  lemma Row2560x1440(f: Format)
    requires ResolutionKey(f) == "2560x1440"
    ensures RowFacts(f, 2560, 1440, "1440p (2K)")
  {
    assert Decimal.NatToString(2560) == "2560" && Decimal.NatToString(1440) == "1440";
    KeyRow(f, 2560, 1440, "1440p (2K)");
  }

  lemma Row1920x1080(f: Format)
    requires ResolutionKey(f) == "1920x1080"
    ensures RowFacts(f, 1920, 1080, "1080p (HD)")
  {
    assert Decimal.NatToString(1920) == "1920" && Decimal.NatToString(1080) == "1080";
    KeyRow(f, 1920, 1080, "1080p (HD)");
  }

  lemma Row1280x720(f: Format)
    requires ResolutionKey(f) == "1280x720"
    ensures RowFacts(f, 1280, 720, "720p (HD)")
  {
    assert Decimal.NatToString(1280) == "1280" && Decimal.NatToString(720) == "720";
    KeyRow(f, 1280, 720, "720p (HD)");
  }

  lemma Row854x480(f: Format)
    requires ResolutionKey(f) == "854x480"
    ensures RowFacts(f, 854, 480, "480p (SD)")
  {
    assert Decimal.NatToString(854) == "854" && Decimal.NatToString(480) == "480";
    KeyRow(f, 854, 480, "480p (SD)");
  }

  lemma Row640x360(f: Format)
    requires ResolutionKey(f) == "640x360"
    ensures RowFacts(f, 640, 360, "360p (SD)")
  {
    assert Decimal.NatToString(640) == "640" && Decimal.NatToString(360) == "360";
    KeyRow(f, 640, 360, "360p (SD)");
  }

  lemma Row426x240(f: Format)
    requires ResolutionKey(f) == "426x240"
    ensures RowFacts(f, 426, 240, "240p (SD)")
  {
    assert Decimal.NatToString(426) == "426" && Decimal.NatToString(240) == "240";
    KeyRow(f, 426, 240, "240p (SD)");
  }

  lemma Row256x144(f: Format)
    requires ResolutionKey(f) == "256x144"
    ensures RowFacts(f, 256, 144, "144p")
  {
    assert Decimal.NatToString(256) == "256" && Decimal.NatToString(144) == "144";
    KeyRow(f, 256, 144, "144p");
  }

  /** An allowed key pins the record down to one of the table's eight rows.
      The unused getQualityLabel agrees with the table's label except for
      256x144, where it yields "144p" and the table "144p (SD)". */
  lemma AllowedKeyRow(f: Format)
    requires ResolutionKey(f) in AllowedResolutions
    ensures NatTruthy(f.width) && NatTruthy(f.height)
    ensures var key := ResolutionKey(f);
      && (key == "3840x2160" ==> RowFacts(f, 3840, 2160, "2160p (4K)"))
      && (key == "2560x1440" ==> RowFacts(f, 2560, 1440, "1440p (2K)"))
      && (key == "1920x1080" ==> RowFacts(f, 1920, 1080, "1080p (HD)"))
      && (key == "1280x720" ==> RowFacts(f, 1280, 720, "720p (HD)"))
      && (key == "854x480" ==> RowFacts(f, 854, 480, "480p (SD)"))
      && (key == "640x360" ==> RowFacts(f, 640, 360, "360p (SD)"))
      && (key == "426x240" ==> RowFacts(f, 426, 240, "240p (SD)"))
      && (key == "256x144" ==> RowFacts(f, 256, 144, "144p"))
  {
    var key := ResolutionKey(f);
    if key == "3840x2160" {
      Row3840x2160(f);
    } else if key == "2560x1440" {
      Row2560x1440(f);
    } else if key == "1920x1080" {
      Row1920x1080(f);
    } else if key == "1280x720" {
      Row1280x720(f);
    } else if key == "854x480" {
      Row854x480(f);
    } else if key == "640x360" {
      Row640x360(f);
    } else if key == "426x240" {
      Row426x240(f);
    } else if key == "256x144" {
      Row256x144(f);
    }
  }

  /** Every offered video option has positive dimensions, so its aspect
      ratio is not "N/A" but the reduced form p:q of its width:height. */
  lemma VideoAspectRatio(f: Format)
    requires ResolutionKey(f) in AllowedResolutions
    ensures NatTruthy(f.width) && NatTruthy(f.height)
    ensures var w, h := f.width.value, f.height.value;
      var p, q := w / Ratio.Gcd(w, h), h / Ratio.Gcd(w, h);
      && VideoOption(f).aspectRatio == Decimal.NatToString(p) + ":" + Decimal.NatToString(q)
      && p * h == q * w
      && Ratio.Coprime(p, q)
  {
    AllowedKeyRow(f);
    Ratio.AspectRatioReduced(f.width.value, f.height.value);
  }

  /** The 480p row of the table is not 16:9: 854x480 reduces to 427:240. */
  lemma WideVgaRatio()
    ensures Ratio.AspectRatio(Some(854), Some(480)) == "427:240"
  {
    assert Ratio.Gcd(854, 480) == 2;
    assert Decimal.NatToString(427) == "427" && Decimal.NatToString(240) == "240";
  }

  /** The 240p row is not 16:9 either: 426x240 reduces to 71:40. */
  lemma NarrowVgaRatio()
    ensures Ratio.AspectRatio(Some(426), Some(240)) == "71:40"
  {
    assert Ratio.Gcd(426, 240) == 6;
    assert Decimal.NatToString(71) == "71" && Decimal.NatToString(40) == "40";
  }
}
