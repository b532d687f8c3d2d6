/** `getQualityLabel` (server.js lines 31-41): a ladder of height thresholds.
    The server defines it but never calls it. */
module Quality {
  import opened Values
  import Decimal

  /** The ladder's rungs, highest first: minimum height and label. */
  const Bands: seq<(nat, string)> := [
    (2160, "2160p (4K)"),
    (1440, "1440p (2K)"),
    (1080, "1080p (HD)"),
    (720, "720p (HD)"),
    (480, "480p (SD)"),
    (360, "360p (SD)"),
    (240, "240p (SD)")
  ]

  function QualityLabel(height: Option<nat>): (r: string)
    ensures !NatTruthy(height) ==> r == "Unknown"
    ensures NatTruthy(height) && height.value < 240 ==> r == Decimal.NatToString(height.value) + "p"
  {
    if !NatTruthy(height) then "Unknown"
    else
      var h := height.value;
      if h >= 2160 then "2160p (4K)"
      else if h >= 1440 then "1440p (2K)"
      else if h >= 1080 then "1080p (HD)"
      else if h >= 720 then "720p (HD)"
      else if h >= 480 then "480p (SD)"
      else if h >= 360 then "360p (SD)"
      else if h >= 240 then "240p (SD)"
      else Decimal.NatToString(h) + "p"
  }

  lemma ShortNumber(n: nat)
    requires n < 1000
    ensures |Decimal.NatToString(n)| <= 3
  {
    if n >= 10 {
      ShortNumber(n / 10);
    }
  }

  /** A positive height gets rung i's label exactly when it is at least that
      rung's minimum and below the minimum of the rung above. */
  lemma QualityLabelBand(h: nat, i: nat)
    requires h > 0 && i < |Bands|
    ensures QualityLabel(Some(h)) == Bands[i].1 <==>
      Bands[i].0 <= h && (i == 0 || h < Bands[i - 1].0)
  {
    if h < 240 {
      ShortNumber(h);
      assert |QualityLabel(Some(h))| <= 4 < |Bands[i].1|;
    }
  }

  /** The ladder is monotone: a taller height never gets a lower rung. */
  lemma QualityLabelMonotone(h1: nat, h2: nat, i: nat, j: nat)
    requires 0 < h1 <= h2 && i < |Bands| && j < |Bands|
    requires QualityLabel(Some(h1)) == Bands[i].1 && QualityLabel(Some(h2)) == Bands[j].1
    ensures j <= i
  {
    QualityLabelBand(h1, i);
    QualityLabelBand(h2, j);
  }

  /** Heights of 240 and more always land on a rung. */
  lemma QualityLabelOnLadder(h: nat)
    requires h >= 240
    ensures exists i :: 0 <= i < |Bands| && QualityLabel(Some(h)) == Bands[i].1
  {
    var i := if h >= 2160 then 0 else if h >= 1440 then 1 else if h >= 1080 then 2
      else if h >= 720 then 3 else if h >= 480 then 4 else if h >= 360 then 5 else 6;
    QualityLabelBand(h, i);
  }
}
