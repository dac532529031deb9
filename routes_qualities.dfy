/** The Express server's quality list (server/routes.ts:38-104) and download
    file name (server/routes.ts:194). Both are pure expression chains in the
    source: map, filter with a reduce inside, sort, map; two regex replaces. */
module RoutesQualities {
  import opened Common
  import opened Schema

  /** The nine resolution labels, highest first, and the least height of each. */
  const BucketLabels: seq<string> := ["4320p60", "2160p60", "1440p", "1080p", "720p", "480p", "360p", "240p", "144p"]
  const BucketFloors: seq<nat> := [4320, 2160, 1440, 1080, 720, 480, 360, 240, 0]

  /** The bucket a height falls in (0 is the highest): the first floor it reaches. */
  function BucketIndex(h: nat): (k: nat)
    ensures k < 9 && BucketFloors[k] <= h
    ensures k > 0 ==> h < BucketFloors[k - 1]
  {
    if h >= 4320 then 0
    else if h >= 2160 then 1
    else if h >= 1440 then 2
    else if h >= 1080 then 3
    else if h >= 720 then 4
    else if h >= 480 then 5
    else if h >= 360 then 6
    else if h >= 240 then 7
    else 8
  }

  /** A greater height never lands in a lower bucket. */
  lemma BucketMonotone(h1: nat, h2: nat)
    requires h1 <= h2
    ensures BucketIndex(h2) <= BucketIndex(h1)
    ensures BucketFloors[BucketIndex(h1)] <= BucketFloors[BucketIndex(h2)]
  {
  }

  /** The quality label of server/routes.ts:40-53: the bucket label for a
      truthy height, else `qualityLabel || quality || 'unknown'`. */
  function Label(f: Format): (r: string)
    ensures r != ""
    ensures PresentNat(f.height) ==> r in BucketLabels
  {
    if PresentNat(f.height) then BucketLabels[BucketIndex(f.height.value)]
    else OrElse(f.qualityLabel, OrElse(f.quality, "unknown"))
  }

  /** A format with a height gets exactly one of the nine labels, the one whose
      floor it reaches and whose next-higher floor it does not. */
  lemma LabelOfHeight(f: Format)
    requires PresentNat(f.height)
    ensures Label(f) in BucketLabels
    ensures forall k :: 0 <= k < 9 && BucketLabels[k] == Label(f) ==>
              BucketFloors[k] <= f.height.value && (k == 0 || f.height.value < BucketFloors[k - 1])
  {
    var h := f.height.value;
    forall k | 0 <= k < 9 && BucketLabels[k] == Label(f)
      ensures BucketFloors[k] <= h && (k == 0 || h < BucketFloors[k - 1])
    {
      assert k == BucketIndex(h);
    }
  }

  /** Megabytes per second of video, in tenths, that the size estimate assumes
      for a height (server/routes.ts:64-71). */
  function EstimateTenths(h: nat): nat {
    if h >= 2160 then 80
    else if h >= 1440 then 40
    else if h >= 1080 then 25
    else if h >= 720 then 15
    else if h >= 480 then 8
    else if h >= 360 then 5
    else if h >= 240 then 3
    else 2
  }

  /** The size text of server/routes.ts:56-74: the exact size in MB, else an
      estimate from the duration for a format with a height, else 'Unknown'. */
  function FileSize(f: Format, durationSec: nat): (r: string)
    ensures r == "Unknown" <==> f.contentLength.None? && !PresentNat(f.height)
    ensures f.contentLength.None? && PresentNat(f.height) ==> |r| >= 3 && r[0] == '~' && r[|r| - 2..] == "MB"
  {
    if f.contentLength.Some? then
      var m := MegabyteText(f.contentLength.value);
      assert m[|m| - 1] == 'B' != "Unknown"[6];
      m
    else if PresentNat(f.height) then
      var e := "~" + NatStr(RoundDiv(durationSec * EstimateTenths(f.height.value), 10)) + "MB";
      assert e[0] == '~' && e[|e| - 2..] == "MB";
      e
    else "Unknown"
  }

  /** A taller format never gets a smaller size estimate. */
  lemma EstimateMonotone(h1: nat, h2: nat, durationSec: nat)
    requires h1 <= h2
    ensures RoundDiv(durationSec * EstimateTenths(h1), 10) <= RoundDiv(durationSec * EstimateTenths(h2), 10)
  {
    MulMonotone(EstimateTenths(h1), EstimateTenths(h2), durationSec);
    RoundDivMonotone(durationSec * EstimateTenths(h1), durationSec * EstimateTenths(h2), 10);
  }

  /** The intermediate record of server/routes.ts:76-84; the list position stands
      for the object identity the filter compares with `===`. */
  datatype Candidate = Candidate(
    quality: string,
    format: string,
    fileSize: string,
    hasAudio: bool,
    resolution: nat,
    bitrate: nat)

  function ToCandidate(f: Format, durationSec: nat): Candidate {
    Candidate(
      Label(f),
      OrElse(f.container, "mp4"),
      FileSize(f, durationSec),
      f.hasAudio,
      if PresentNat(f.height) then f.height.value else 0,
      f.bitrate)
  }

  function Candidates(formats: seq<Format>, durationSec: nat): (c: seq<Candidate>)
    ensures |c| == |formats|
  {
    seq(|formats|, i requires 0 <= i < |formats| => ToCandidate(formats[i], durationSec))
  }

  /** The step of the reduce at server/routes.ts:92-96: does `current` replace `best`? */
  predicate Replaces(best: Candidate, current: Candidate) {
    if current.hasAudio && !best.hasAudio then true
    else if !current.hasAudio && best.hasAudio then false
    else current.bitrate > best.bitrate
  }

  /** The position the reduce ends on when it folds, left to right, over the
      candidates labelled q among the first n; None when there is none. */
  function BestIndex(s: seq<Candidate>, q: string, n: nat): (r: Option<nat>)
    requires n <= |s|
    ensures r.Some? ==> r.value < n && s[r.value].quality == q
  {
    if n == 0 then None
    else
      var b := BestIndex(s, q, n - 1);
      if s[n - 1].quality != q then b
      else if b.None? || Replaces(s[b.value], s[n - 1]) then Some(n - 1)
      else b
  }

  /** The reduce has no result exactly when no candidate among the first n carries q. */
  lemma {:induction false} BestIndexNone(s: seq<Candidate>, q: string, n: nat)
    requires n <= |s|
    ensures BestIndex(s, q, n).None? <==> forall j :: 0 <= j < n ==> s[j].quality != q
  {
    if n > 0 {
      BestIndexNone(s, q, n - 1);
    }
  }

  /** How many candidates carry label q (`sameQuality.length`). */
  function CountLabel(s: seq<Candidate>, q: string): nat {
    if s == [] then 0
    else CountLabel(s[..|s| - 1], q) + (if s[|s| - 1].quality == q then 1 else 0)
  }

  /** The filter predicate of server/routes.ts:86-99 for position i. */
  predicate Keep(s: seq<Candidate>, i: nat)
    requires i < |s|
  {
    CountLabel(s, s[i].quality) == 1 || BestIndex(s, s[i].quality, |s|) == Some(i)
  }

  /** The candidates among the first n that the filter keeps, in order. */
  function Filtered(s: seq<Candidate>, n: nat): seq<Candidate>
    requires n <= |s|
  {
    if n == 0 then []
    else Filtered(s, n - 1) + (if Keep(s, n - 1) then [s[n - 1]] else [])
  }

  /** The filter never adds entries. */
  lemma {:induction false} FilteredLength(s: seq<Candidate>, n: nat)
    requires n <= |s|
    ensures |Filtered(s, n)| <= n
  {
    if n > 0 {
      FilteredLength(s, n - 1);
    }
  }

  function Dedupe(s: seq<Candidate>): seq<Candidate> {
    Filtered(s, |s|)
  }

  /** Stable insertion of x in front of every candidate of lower or equal resolution. */
  function Insert(x: Candidate, t: seq<Candidate>): seq<Candidate> {
    if t == [] || x.resolution >= t[0].resolution then [x] + t
    else [t[0]] + Insert(x, t[1..])
  }

  /** Array.prototype.sort with comparator `b.resolution - a.resolution`; the
      sort is stable, so equal resolutions keep their order. */
  function SortByResolution(s: seq<Candidate>): seq<Candidate> {
    if s == [] then [] else Insert(s[0], SortByResolution(s[1..]))
  }

  function Project(c: Candidate): QualityOption {
    QualityOption(c.quality, c.format, c.fileSize)
  }

  /** The deduplicated candidates in display order, before the internal fields are dropped. */
  function Ranked(formats: seq<Format>, durationSec: nat): seq<Candidate> {
    SortByResolution(Dedupe(Candidates(formats, durationSec)))
  }

  /** `availableQualities` of server/routes.ts:38-104 for the combined formats
      followed by the video-only formats. The ensures only bridges to Ranked
      for callers; what the list promises is stated by
      AvailableQualitiesUnique, AvailableQualitiesRanked and
      AvailableQualitiesBounded. */
  function AvailableQualities(combined: seq<Format>, videoOnly: seq<Format>, durationSec: nat): (r: seq<QualityOption>)
    ensures |r| == |Ranked(combined + videoOnly, durationSec)|
    ensures forall i :: 0 <= i < |r| ==> r[i] == Project(Ranked(combined + videoOnly, durationSec)[i])
  {
    var ranked := Ranked(combined + videoOnly, durationSec);
    seq(|ranked|, i requires 0 <= i < |ranked| => Project(ranked[i]))
  }

  /** The list never has more entries than there are formats. */
  lemma AvailableQualitiesBounded(combined: seq<Format>, videoOnly: seq<Format>, durationSec: nat)
    ensures |AvailableQualities(combined, videoOnly, durationSec)| <= |combined| + |videoOnly|
  {
    var c := Candidates(combined + videoOnly, durationSec);
    FilteredLength(c, |c|);
    SortByResolutionCorrect(Dedupe(c));
    assert |multiset(SortByResolution(Dedupe(c)))| == |Dedupe(c)|;
  }

  // ---- Counting labels

  lemma {:induction false} CountLabelAppend(a: seq<Candidate>, b: seq<Candidate>, q: string)
    ensures CountLabel(a + b, q) == CountLabel(a, q) + CountLabel(b, q)
    decreases |b|
  {
    if b == [] {
      assert a + b == a;
    } else {
      var b' := b[..|b| - 1];
      assert (a + b)[..|a + b| - 1] == a + b';
      CountLabelAppend(a, b', q);
    }
  }

  /** Some candidate carries label q exactly when the count is positive. */
  lemma {:induction false} CountLabelPositive(s: seq<Candidate>, q: string)
    ensures CountLabel(s, q) > 0 <==> exists j :: 0 <= j < |s| && s[j].quality == q
  {
    if s != [] {
      var p := s[..|s| - 1];
      CountLabelPositive(p, q);
      if CountLabel(p, q) > 0 {
        var j :| 0 <= j < |p| && p[j].quality == q;
        assert s[j].quality == q;
      }
      if exists j :: 0 <= j < |s| && s[j].quality == q {
        var j :| 0 <= j < |s| && s[j].quality == q;
        if j < |p| {
          assert p[j].quality == q;
        }
      }
    }
  }

  /** Two distinct positions with label q make the count at least two. */
  lemma {:induction false} CountLabelTwo(s: seq<Candidate>, q: string, i: nat, j: nat)
    requires i < j < |s| && s[i].quality == q && s[j].quality == q
    ensures CountLabel(s, q) >= 2
  {
    var p := s[..|s| - 1];
    if j == |s| - 1 {
      assert p[i].quality == q;
      CountLabelPositive(p, q);
    } else {
      assert p[i].quality == q && p[j].quality == q;
      CountLabelTwo(p, q, i, j);
    }
  }

  /** A label counted at most once in a list sits at one position only. */
  lemma LabelsDistinct(s: seq<Candidate>)
    requires forall q :: CountLabel(s, q) <= 1
    ensures forall i, j :: 0 <= i < j < |s| ==> s[i].quality != s[j].quality
  {
    forall i, j | 0 <= i < j < |s|
      ensures s[i].quality != s[j].quality
    {
      if s[i].quality == s[j].quality {
        CountLabelTwo(s, s[i].quality, i, j);
      }
    }
  }

  // ---- The filter

  /** The length-one shortcut of the filter changes nothing: a position is kept
      exactly when the reduce over its label ends on it. */
  lemma KeepIsBest(s: seq<Candidate>, i: nat)
    requires i < |s|
    ensures Keep(s, i) <==> BestIndex(s, s[i].quality, |s|) == Some(i)
  {
    var q := s[i].quality;
    var b := BestIndex(s, q, |s|);
    if CountLabel(s, q) == 1 && b != Some(i) {
      BestIndexNone(s, q, |s|);
      assert b.Some?;
      if b.value < i {
        CountLabelTwo(s, q, b.value, i);
      } else {
        CountLabelTwo(s, q, i, b.value);
      }
    }
  }

  /** After the filter, the first n positions contribute label q once if the
      reduce over q ends among them, and never otherwise. */
  lemma {:induction false} FilteredCount(s: seq<Candidate>, q: string, n: nat)
    requires n <= |s|
    ensures var b := BestIndex(s, q, |s|);
            CountLabel(Filtered(s, n), q) == if b.Some? && b.value < n then 1 else 0
  {
    if n > 0 {
      FilteredCount(s, q, n - 1);
      var prev := Filtered(s, n - 1);
      var tail := if Keep(s, n - 1) then [s[n - 1]] else [];
      assert Filtered(s, n) == prev + tail;
      CountLabelAppend(prev, tail, q);
      KeptCount(s, q, n - 1);
    }
  }

  /** What the filter's verdict on position i adds to the count of label q. */
  lemma KeptCount(s: seq<Candidate>, q: string, i: nat)
    requires i < |s|
    ensures CountLabel(if Keep(s, i) then [s[i]] else [], q)
            == if BestIndex(s, q, |s|) == Some(i) then 1 else 0
  {
    KeepIsBest(s, i);
    var tail := [s[i]];
    assert tail[..0] == [];
    assert CountLabel(tail, q) == if s[i].quality == q then 1 else 0;
  }

  /** Every label of the mapped list appears exactly once after the filter,
      and no other label appears. */
  lemma DedupeCount(s: seq<Candidate>, q: string)
    ensures CountLabel(Dedupe(s), q) == if exists j :: 0 <= j < |s| && s[j].quality == q then 1 else 0
  {
    FilteredCount(s, q, |s|);
    BestIndexNone(s, q, |s|);
  }

  /** Position i is where the reduce over its own label ends. */
  predicate Winner(s: seq<Candidate>, i: nat) {
    i < |s| && BestIndex(s, s[i].quality, |s|) == Some(i)
  }

  /** e is the entry at some position below n where the reduce over its label ends. */
  ghost predicate ChosenFrom(s: seq<Candidate>, n: nat, e: Candidate)
    requires n <= |s|
  {
    exists i :: 0 <= i < n && e == s[i] && Winner(s, i)
  }

  /** Every entry the filter keeps is the one the reduce chose for its label. */
  lemma {:induction false} FilteredAreWinners(s: seq<Candidate>, n: nat)
    requires n <= |s|
    ensures forall e :: e in Filtered(s, n) ==> ChosenFrom(s, n, e)
  {
    if n > 0 {
      FilteredAreWinners(s, n - 1);
      var prev := Filtered(s, n - 1);
      var tail := if Keep(s, n - 1) then [s[n - 1]] else [];
      assert Filtered(s, n) == prev + tail;
      forall e | e in Filtered(s, n)
        ensures ChosenFrom(s, n, e)
      {
        if e in prev {
          var i :| 0 <= i < n - 1 && e == s[i] && Winner(s, i);
          assert 0 <= i < n && e == s[i];
        } else {
          KeepIsBest(s, n - 1);
          assert e == s[n - 1] && Winner(s, n - 1);
        }
      }
    }
  }

  /** Which entry the reduce keeps for label q: one with audio if any has audio;
      among those with its audio status the highest bitrate, the earliest on a tie. */
  lemma {:induction false} WinnerChoice(s: seq<Candidate>, q: string, n: nat)
    requires n <= |s| && BestIndex(s, q, n).Some?
    ensures var b := BestIndex(s, q, n).value;
            && (forall j :: 0 <= j < n && s[j].quality == q && s[j].hasAudio ==> s[b].hasAudio)
            && (forall j :: 0 <= j < n && s[j].quality == q && s[j].hasAudio == s[b].hasAudio ==>
                  s[j].bitrate <= s[b].bitrate)
            && (forall j :: 0 <= j < b && s[j].quality == q && s[j].hasAudio == s[b].hasAudio ==>
                  s[j].bitrate < s[b].bitrate)
  {
    var prev := BestIndex(s, q, n - 1);
    var b := BestIndex(s, q, n).value;
    var x := s[n - 1];
    if x.quality != q {
      WinnerChoice(s, q, n - 1);
    } else if prev.None? {
      BestIndexNone(s, q, n - 1);
      assert b == n - 1;
    } else {
      WinnerChoice(s, q, n - 1);
      var p := prev.value;
      if Replaces(s[p], x) {
        assert b == n - 1;
        if x.hasAudio && !s[p].hasAudio {
          assert forall j :: 0 <= j < n - 1 && s[j].quality == q ==> !s[j].hasAudio;
        } else {
          assert x.hasAudio == s[p].hasAudio && x.bitrate > s[p].bitrate;
        }
      } else {
        assert b == p;
      }
    }
  }

  // ---- The sort

  ghost predicate ByResolution(s: seq<Candidate>) {
    forall i, j :: 0 <= i < j < |s| ==> s[i].resolution >= s[j].resolution
  }

  /** Inserting under a bound keeps every resolution under it. */
  lemma {:induction false} InsertBounded(x: Candidate, t: seq<Candidate>, m: nat)
    requires x.resolution <= m && forall k :: 0 <= k < |t| ==> t[k].resolution <= m
    ensures |Insert(x, t)| == |t| + 1
    ensures forall k :: 0 <= k < |Insert(x, t)| ==> Insert(x, t)[k].resolution <= m
    decreases |t|
  {
    if t != [] && x.resolution < t[0].resolution {
      InsertBounded(x, t[1..], m);
    }
  }

  /** Insertion adds exactly x. */
  lemma {:induction false} InsertPermutes(x: Candidate, t: seq<Candidate>)
    ensures multiset(Insert(x, t)) == multiset{x} + multiset(t)
    decreases |t|
  {
    if t != [] && x.resolution < t[0].resolution {
      InsertPermutes(x, t[1..]);
      assert t == [t[0]] + t[1..];
    }
  }

  /** Insertion into a list ordered by resolution keeps it ordered. */
  lemma {:induction false} InsertOrdered(x: Candidate, t: seq<Candidate>)
    requires ByResolution(t)
    ensures ByResolution(Insert(x, t))
    decreases |t|
  {
    var r := Insert(x, t);
    if t == [] || x.resolution >= t[0].resolution {
      forall i, j | 0 <= i < j < |r|
        ensures r[i].resolution >= r[j].resolution
      {
        assert r[j] == t[j - 1];
        if i > 0 {
          assert r[i] == t[i - 1];
        }
      }
    } else {
      var tail := t[1..];
      var rest := Insert(x, tail);
      InsertOrdered(x, tail);
      assert forall k :: 0 <= k < |tail| ==> tail[k] == t[k + 1];
      InsertBounded(x, tail, t[0].resolution);
      forall i, j | 0 <= i < j < |r|
        ensures r[i].resolution >= r[j].resolution
      {
        assert r[j] == rest[j - 1];
        if i > 0 {
          assert r[i] == rest[i - 1];
        }
      }
    }
  }

  /** Inserting into a list sorted by resolution keeps it sorted and adds exactly x. */
  lemma InsertSorted(x: Candidate, t: seq<Candidate>)
    requires ByResolution(t)
    ensures ByResolution(Insert(x, t))
    ensures multiset(Insert(x, t)) == multiset{x} + multiset(t)
  {
    InsertOrdered(x, t);
    InsertPermutes(x, t);
  }

  /** The sort orders by non-increasing resolution and is a permutation. */
  lemma {:induction false} SortByResolutionCorrect(s: seq<Candidate>)
    ensures ByResolution(SortByResolution(s))
    ensures multiset(SortByResolution(s)) == multiset(s)
  {
    if s != [] {
      SortByResolutionCorrect(s[1..]);
      InsertSorted(s[0], SortByResolution(s[1..]));
      assert s == [s[0]] + s[1..];
    }
  }

  lemma {:induction false} InsertCount(x: Candidate, t: seq<Candidate>, q: string)
    ensures CountLabel(Insert(x, t), q) == CountLabel([x], q) + CountLabel(t, q)
    decreases |t|
  {
    if t == [] || x.resolution >= t[0].resolution {
      CountLabelAppend([x], t, q);
    } else {
      InsertCount(x, t[1..], q);
      CountLabelAppend([t[0]], Insert(x, t[1..]), q);
      CountLabelAppend([t[0]], t[1..], q);
      CountLabelAppend([x], t[1..], q);
      assert [t[0]] + t[1..] == t;
    }
  }

  lemma {:induction false} SortCount(s: seq<Candidate>, q: string)
    ensures CountLabel(SortByResolution(s), q) == CountLabel(s, q)
  {
    if s != [] {
      SortCount(s[1..], q);
      InsertCount(s[0], SortByResolution(s[1..]), q);
      CountLabelAppend([s[0]], s[1..], q);
      assert [s[0]] + s[1..] == s;
    }
  }

  // ---- The whole chain

  /** Some entry of the list offers quality q. */
  predicate Offers(r: seq<QualityOption>, q: string) {
    exists i :: 0 <= i < |r| && r[i].quality == q
  }

  /** Some format gets label q. */
  predicate Labelled(formats: seq<Format>, q: string) {
    exists f :: f in formats && Label(f) == q
  }

  /** Each label occurs once in the final list, and exactly the labels of the
      input formats occur. */
  lemma AvailableQualitiesUnique(combined: seq<Format>, videoOnly: seq<Format>, durationSec: nat)
    ensures var r := AvailableQualities(combined, videoOnly, durationSec);
            && (forall i, j :: 0 <= i < j < |r| ==> r[i].quality != r[j].quality)
            && (forall q :: Offers(r, q) <==> Labelled(combined + videoOnly, q))
  {
    var formats := combined + videoOnly;
    var c := Candidates(formats, durationSec);
    var ranked := Ranked(formats, durationSec);
    var r := AvailableQualities(combined, videoOnly, durationSec);
    forall q ensures CountLabel(ranked, q) == if exists j :: 0 <= j < |c| && c[j].quality == q then 1 else 0 {
      DedupeCount(c, q);
      SortCount(Dedupe(c), q);
    }
    LabelsDistinct(ranked);
    forall q ensures Offers(r, q) <==> Labelled(formats, q) {
      OffersOfCount(formats, c, ranked, r, q);
    }
  }

  /** One label of AvailableQualitiesUnique: the final list offers q exactly when
      the ranked candidates count it, that is, when some format is labelled q. */
  lemma OffersOfCount(formats: seq<Format>, c: seq<Candidate>, ranked: seq<Candidate>,
                      r: seq<QualityOption>, q: string)
    requires |c| == |formats| && forall j :: 0 <= j < |c| ==> c[j].quality == Label(formats[j])
    requires CountLabel(ranked, q) == if exists j :: 0 <= j < |c| && c[j].quality == q then 1 else 0
    requires |r| == |ranked| && forall i :: 0 <= i < |r| ==> r[i].quality == ranked[i].quality
    ensures Offers(r, q) <==> Labelled(formats, q)
  {
    CountLabelPositive(ranked, q);
    if exists i :: 0 <= i < |r| && r[i].quality == q {
      var i :| 0 <= i < |r| && r[i].quality == q;
      assert ranked[i].quality == q;
      var j :| 0 <= j < |c| && c[j].quality == q;
      assert formats[j] in formats;
    }
    if exists f :: f in formats && Label(f) == q {
      var f :| f in formats && Label(f) == q;
      var j :| 0 <= j < |formats| && formats[j] == f;
      assert c[j].quality == q;
      var i :| 0 <= i < |ranked| && ranked[i].quality == q;
      assert r[i].quality == q;
    }
  }

  /** Each ranked candidate is the one the reduce chose for its label, and its
      format is that format's container or mp4. */
  ghost predicate RankedAreChosen(formats: seq<Format>, durationSec: nat) {
    var c := Candidates(formats, durationSec);
    var ranked := Ranked(formats, durationSec);
    forall k :: 0 <= k < |ranked| ==>
      exists i :: 0 <= i < |formats| && ranked[k] == c[i] && Winner(c, i)
        && ranked[k].format == OrElse(formats[i].container, "mp4")
  }

  /** The final list is ordered by non-increasing hidden resolution, each entry
      is one the reduce chose for its label, and the format defaults to mp4. */
  lemma AvailableQualitiesRanked(combined: seq<Format>, videoOnly: seq<Format>, durationSec: nat)
    ensures ByResolution(Ranked(combined + videoOnly, durationSec))
    ensures RankedAreChosen(combined + videoOnly, durationSec)
  {
    var formats := combined + videoOnly;
    SortByResolutionCorrect(Dedupe(Candidates(formats, durationSec)));
    RankedAreWinners(formats, durationSec);
  }

  /** The proof of RankedAreChosen, entry by entry. */
  lemma RankedAreWinners(formats: seq<Format>, durationSec: nat)
    ensures RankedAreChosen(formats, durationSec)
  {
    var c := Candidates(formats, durationSec);
    var d := Dedupe(c);
    var ranked := Ranked(formats, durationSec);
    SortByResolutionCorrect(d);
    FilteredAreWinners(c, |c|);
    forall e | e in ranked ensures ChosenFrom(c, |c|, e) {
      assert e in multiset(d);
    }
    forall k | 0 <= k < |ranked|
      ensures exists i :: 0 <= i < |formats| && ranked[k] == c[i] && Winner(c, i)
                && ranked[k].format == OrElse(formats[i].container, "mp4")
    {
      WinnerFormat(formats, durationSec, c, ranked[k]);
    }
  }

  /** One entry of AvailableQualitiesRanked: a winner of the reduce is the
      candidate of some format, and carries that format's container. */
  lemma WinnerFormat(formats: seq<Format>, durationSec: nat, c: seq<Candidate>, e: Candidate)
    requires c == Candidates(formats, durationSec)
    requires ChosenFrom(c, |c|, e)
    ensures exists i :: 0 <= i < |formats| && e == c[i] && Winner(c, i)
              && e.format == OrElse(formats[i].container, "mp4")
  {
    var i :| 0 <= i < |c| && e == c[i] && Winner(c, i);
    assert e.format == OrElse(formats[i].container, "mp4");
  }

  // ---- The download file name (server/routes.ts:194)

  /** A UTF-16 code unit (below 0x10000): JavaScript regexes without the u flag match these. */
  type CodeUnit = nat

  /** The UTF-16 encoding of a string: astral characters become surrogate pairs. */
  function Utf16(s: string): (t: seq<CodeUnit>)
    ensures forall i :: 0 <= i < |t| ==> t[i] < 0x10000
  {
    if s == [] then []
    else
      var c := s[0] as int;
      (if c < 0x10000 then [c]
       else [0xD800 + (c - 0x10000) / 0x400, 0xDC00 + (c - 0x10000) % 0x400])
      + Utf16(s[1..])
  }

  const Underscore: CodeUnit := 95

  predicate IsAlnum(u: CodeUnit) {
    48 <= u <= 57 || 65 <= u <= 90 || 97 <= u <= 122
  }

  /** The JavaScript class `\s`: white space and line terminators. */
  predicate IsSpace(u: CodeUnit) {
    (9 <= u <= 13) || u == 32 || u == 0xA0 || u == 0x1680 || (0x2000 <= u <= 0x200A)
    || u == 0x2028 || u == 0x2029 || u == 0x202F || u == 0x205F || u == 0x3000 || u == 0xFEFF
  }

  /** `.replace(/[^a-zA-Z0-9\s]/g, '_')`. */
  function MaskSpecial(t: seq<CodeUnit>): (r: seq<CodeUnit>)
    ensures |r| == |t|
    ensures forall i :: 0 <= i < |t| ==> r[i] == if IsAlnum(t[i]) || IsSpace(t[i]) then t[i] else Underscore
  {
    if t == [] then [] else [if IsAlnum(t[0]) || IsSpace(t[0]) then t[0] else Underscore] + MaskSpecial(t[1..])
  }

  /** The suffix after a leading run of white space. */
  function SkipSpaces(t: seq<CodeUnit>): (r: seq<CodeUnit>)
    ensures |r| <= |t|
    ensures forall i :: 0 <= i < |r| ==> r[i] == t[|t| - |r| + i]
    ensures r == [] || !IsSpace(r[0])
  {
    if t != [] && IsSpace(t[0]) then SkipSpaces(t[1..]) else t
  }

  /** What is skipped is a prefix of white space only, and the rest is the
      untouched suffix. */
  lemma {:induction false} SkipSpacesSplit(t: seq<CodeUnit>)
    ensures var r := SkipSpaces(t);
            && r == t[|t| - |r|..]
            && forall k :: 0 <= k < |t| - |r| ==> IsSpace(t[k])
  {
    if t != [] && IsSpace(t[0]) {
      SkipSpacesSplit(t[1..]);
      var r := SkipSpaces(t);
      assert t[1..][|t| - 1 - |r|..] == t[|t| - |r|..];
      forall k | 0 <= k < |t| - |r|
        ensures IsSpace(t[k])
      {
        if k > 0 {
          assert t[k] == t[1..][k - 1];
        }
      }
    }
  }

  /** `.replace(/\s+/g, '_')`: each maximal run of white space becomes one underscore. */
  function CollapseSpaces(t: seq<CodeUnit>): seq<CodeUnit>
    decreases |t|
  {
    if t == [] then []
    else if IsSpace(t[0]) then [Underscore] + CollapseSpaces(SkipSpaces(t[1..]))
    else [t[0]] + CollapseSpaces(t[1..])
  }

  /** A whole run of white space is skipped, and nothing after it. */
  lemma {:induction false} SkipSpacesOfRun(w: seq<CodeUnit>, u: seq<CodeUnit>)
    requires forall k :: 0 <= k < |w| ==> IsSpace(w[k])
    requires u == [] || !IsSpace(u[0])
    ensures SkipSpaces(w + u) == u
  {
    if w == [] {
      assert w + u == u;
    } else {
      assert (w + u)[0] == w[0] && (w + u)[1..] == w[1..] + u;
      SkipSpacesOfRun(w[1..], u);
    }
  }

  /** A maximal run of white space at the front becomes exactly one underscore. */
  lemma CollapseSpaceRun(w: seq<CodeUnit>, u: seq<CodeUnit>)
    requires |w| > 0 && forall k :: 0 <= k < |w| ==> IsSpace(w[k])
    requires u == [] || !IsSpace(u[0])
    ensures CollapseSpaces(w + u) == [Underscore] + CollapseSpaces(u)
  {
    var t := w + u;
    assert t[0] == w[0] && t[1..] == w[1..] + u;
    SkipSpacesOfRun(w[1..], u);
  }

  /** Any other code unit, a masked underscore included, is kept in place.
      One branch of CollapseSpaces, stated beside CollapseSpaceRun so the two
      cases of the replace read together. */
  lemma CollapseKeepsNonSpace(x: CodeUnit, u: seq<CodeUnit>)
    requires !IsSpace(x)
    ensures CollapseSpaces([x] + u) == [x] + CollapseSpaces(u)
  {
    assert ([x] + u)[1..] == u;
  }

  /** The alphanumeric code units of t, in order. */
  function Alnums(t: seq<CodeUnit>): seq<CodeUnit> {
    if t == [] then [] else (if IsAlnum(t[0]) then [t[0]] else []) + Alnums(t[1..])
  }

  /** A code unit that may appear in a sanitised stem: `[A-Za-z0-9_]`. */
  predicate IsWordUnit(u: CodeUnit) {
    IsAlnum(u) || u == Underscore
  }

  function AsciiText(t: seq<CodeUnit>): (s: string)
    requires forall i :: 0 <= i < |t| ==> IsWordUnit(t[i])
    ensures |s| == |t| && forall i :: 0 <= i < |t| ==> s[i] as int == t[i]
  {
    if t == [] then [] else assert IsWordUnit(t[0]); [t[0] as char] + AsciiText(t[1..])
  }

  lemma {:induction false} AlnumsOfSkipped(t: seq<CodeUnit>)
    ensures Alnums(SkipSpaces(t)) == Alnums(t)
  {
    if t != [] && IsSpace(t[0]) {
      AlnumsOfSkipped(t[1..]);
      assert Alnums(t) == Alnums(t[1..]);
    }
  }

  /** Collapsing leaves only non-space code units, never lengthens the text
      and keeps its alphanumerics in order. */
  lemma {:induction false} CollapseSpacesProps(t: seq<CodeUnit>)
    requires forall i :: 0 <= i < |t| ==> IsAlnum(t[i]) || IsSpace(t[i]) || t[i] == Underscore
    ensures var r := CollapseSpaces(t);
            && |r| <= |t|
            && (forall i :: 0 <= i < |r| ==> IsWordUnit(r[i]))
            && Alnums(r) == Alnums(t)
    decreases |t|
  {
    if t != [] {
      if IsSpace(t[0]) {
        var rest := SkipSpaces(t[1..]);
        assert forall i :: 0 <= i < |rest| ==> rest[i] == t[1..][|t[1..]| - |rest| + i];
        CollapseSpacesProps(rest);
        AlnumsOfSkipped(t[1..]);
        assert !IsAlnum(t[0]);
        assert Alnums([Underscore] + CollapseSpaces(rest)) == Alnums(CollapseSpaces(rest));
      } else {
        CollapseSpacesProps(t[1..]);
        assert ([t[0]] + CollapseSpaces(t[1..]))[1..] == CollapseSpaces(t[1..]);
      }
    }
  }

  lemma {:induction false} AlnumsOfMasked(t: seq<CodeUnit>)
    ensures Alnums(MaskSpecial(t)) == Alnums(t)
  {
    if t != [] {
      AlnumsOfMasked(t[1..]);
      assert MaskSpecial(t)[1..] == MaskSpecial(t[1..]);
    }
  }

  /** The code units of a string whose characters are all below 0x10000. */
  function Units(s: string): (t: seq<CodeUnit>)
    ensures |t| == |s| && forall i :: 0 <= i < |s| ==> t[i] == s[i] as int
  {
    seq(|s|, i requires 0 <= i < |s| => s[i] as int)
  }

  /** The sanitised stem of a title: `title.replace(/[^a-zA-Z0-9\s]/g, '_').replace(/\s+/g, '_')`. */
  function FilenameStem(title: string): (stem: string)
    ensures Units(stem) == CollapseSpaces(MaskSpecial(Utf16(title)))
    ensures |stem| <= |Utf16(title)|
    ensures forall i :: 0 <= i < |stem| ==> IsWordUnit(stem[i] as int)
  {
    var masked := MaskSpecial(Utf16(title));
    CollapseSpacesProps(masked);
    AsciiText(CollapseSpaces(masked))
  }

  /** The stem keeps every ASCII letter and digit of the title, in order; all
      its other characters are underscores. */
  lemma FilenameStemKeepsAlnums(title: string)
    ensures Alnums(Units(FilenameStem(title))) == Alnums(Utf16(title))
  {
    var masked := MaskSpecial(Utf16(title));
    CollapseSpacesProps(masked);
    AlnumsOfMasked(Utf16(title));
  }

  /** The Content-Disposition file name: the stem, a dot and the container, or mp4. */
  function DownloadFilename(title: string, container: Option<string>): (r: string)
    ensures var ext := OrElse(container, "mp4");
            var n := |r| - |ext| - 1;
            && n >= 0 && r[n] == '.' && r[n + 1..] == ext
            && forall i :: 0 <= i < n ==> IsWordUnit(r[i] as int)
    ensures r[..|r| - |OrElse(container, "mp4")| - 1] == FilenameStem(title)
  {
    var stem := FilenameStem(title);
    var r := stem + "." + OrElse(container, "mp4");
    assert r[..|stem|] == stem;
    r
  }
}
