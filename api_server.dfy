/** The serverless variant of the API (api/server.js): its own video cache and
    session map, the quality list built by first occurrence of each label and
    sorted by the number the label's digits spell, and the download stream
    callbacks that keep a session record up to date. */
module VercelApi {
  import opened Common
  import opened Schema
  import opened Transfer
  import RoutesQualities

  /** An `availableQualities` entry of this server: the size is named `size`. */
  datatype SizedQuality = SizedQuality(quality: string, format: string, size: string)

  /** A `sessions` entry. */
  datatype Session = Session(
    progress: nat,
    downloadedSize: string,
    totalSize: string,
    speed: string,
    eta: string,
    status: string)

  /** The record /api/start-download stores (api/server.js:143-150). */
  const StartingSession := Session(0, "0MB", "0MB", "0 MB/s", "0s", "starting")

  const AnalyzeFailed := "Failed to analyze video. Please check the URL and try again."

  // ---- Collecting the qualities (api/server.js:62-87)

  /** A format whose label is truthy and not yet in `seen`. */
  predicate NewLabel(f: Format, seen: set<string>) {
    Present(f.qualityLabel) && f.qualityLabel.value !in seen
  }

  /** The entry pushed for a labelled format. */
  function Entry(f: Format): SizedQuality
    requires Present(f.qualityLabel)
  {
    SizedQuality(
      f.qualityLabel.value,
      OrElse(f.container, "mp4"),
      if f.contentLength.Some? then MegabyteText(f.contentLength.value) else "Unknown")
  }

  /** The entries collected from `formats` when the labels in `seen` are
      already taken: one per new label, in order of first appearance. */
  function FirstByLabel(formats: seq<Format>, seen: set<string>): seq<SizedQuality> {
    if formats == [] then []
    else if NewLabel(formats[0], seen) then
      [Entry(formats[0])] + FirstByLabel(formats[1..], seen + {formats[0].qualityLabel.value})
    else FirstByLabel(formats[1..], seen)
  }

  /** Format k carries the truthy label q. */
  predicate LabelAt(formats: seq<Format>, k: int, q: string) {
    0 <= k < |formats| && Present(formats[k].qualityLabel) && formats[k].qualityLabel.value == q
  }

  /** Format k is the first to carry its label, and that label is not in `seen`. */
  predicate FirstAt(formats: seq<Format>, seen: set<string>, k: int) {
    0 <= k < |formats| && NewLabel(formats[k], seen)
    && forall j :: 0 <= j < k ==> !LabelAt(formats, j, formats[k].qualityLabel.value)
  }

  predicate Labelled(formats: seq<Format>, q: string) {
    exists k :: 0 <= k < |formats| && LabelAt(formats, k, q)
  }

  predicate Offers(r: seq<SizedQuality>, q: string) {
    exists i :: 0 <= i < |r| && r[i].quality == q
  }

  /** No two entries share a label, and none has a label from `seen`. */
  predicate DistinctLabels(r: seq<SizedQuality>, seen: set<string>) {
    && (forall i :: 0 <= i < |r| ==> r[i].quality !in seen)
    && (forall i, j :: 0 <= i < j < |r| ==> r[i].quality != r[j].quality)
  }

  lemma {:induction false} FirstByLabelDistinct(formats: seq<Format>, seen: set<string>)
    ensures DistinctLabels(FirstByLabel(formats, seen), seen)
  {
    if formats != [] {
      var r := FirstByLabel(formats, seen);
      if NewLabel(formats[0], seen) {
        var q := formats[0].qualityLabel.value;
        var rest := FirstByLabel(formats[1..], seen + {q});
        FirstByLabelDistinct(formats[1..], seen + {q});
        assert DistinctLabels(rest, seen + {q});
        assert r == [Entry(formats[0])] + rest;
        forall i | 0 <= i < |r|
          ensures r[i].quality !in seen
        {
          if i > 0 {
            assert r[i] == rest[i - 1];
          }
        }
        forall i, j | 0 <= i < j < |r|
          ensures r[i].quality != r[j].quality
        {
          assert r[j] == rest[j - 1];
          if i > 0 {
            assert r[i] == rest[i - 1];
          }
        }
      } else {
        FirstByLabelDistinct(formats[1..], seen);
        assert r == FirstByLabel(formats[1..], seen);
      }
    }
  }

  /** A label is offered exactly when some format carries it and it is not in `seen`. */
  lemma {:induction false} FirstByLabelCovers(formats: seq<Format>, seen: set<string>, q: string)
    ensures Offers(FirstByLabel(formats, seen), q) <==> q !in seen && Labelled(formats, q)
  {
    if formats == [] {
      assert !Offers(FirstByLabel(formats, seen), q);
    } else {
      var isNew := NewLabel(formats[0], seen);
      var seen' := if isNew then seen + {formats[0].qualityLabel.value} else seen;
      var rest := FirstByLabel(formats[1..], seen');
      FirstByLabelCovers(formats[1..], seen', q);
      LabelledCons(formats, q);
      if isNew {
        OffersCons(Entry(formats[0]), rest, q);
      }
    }
  }

  /** A label is carried by the first format or by one of the others. */
  lemma LabelledCons(formats: seq<Format>, q: string)
    requires formats != []
    ensures Labelled(formats, q) <==> LabelAt(formats, 0, q) || Labelled(formats[1..], q)
  {
    var tail := formats[1..];
    if Labelled(tail, q) {
      var k :| 0 <= k < |tail| && LabelAt(tail, k, q);
      assert LabelAt(formats, k + 1, q);
    }
    if Labelled(formats, q) {
      var k :| 0 <= k < |formats| && LabelAt(formats, k, q);
      if k > 0 {
        assert LabelAt(tail, k - 1, q);
      }
    }
  }

  /** A label is offered by a list with e in front when e has it or the rest offers it. */
  lemma OffersCons(e: SizedQuality, rest: seq<SizedQuality>, q: string)
    ensures Offers([e] + rest, q) <==> e.quality == q || Offers(rest, q)
  {
    var r := [e] + rest;
    if Offers(r, q) {
      var i :| 0 <= i < |r| && r[i].quality == q;
      if i > 0 {
        assert rest[i - 1].quality == q;
      }
    }
    if Offers(rest, q) {
      var i :| 0 <= i < |rest| && rest[i].quality == q;
      assert r[i + 1].quality == q;
    }
    if e.quality == q {
      assert r[0].quality == q;
    }
  }

  /** Each entry is the entry of the first format to carry its label. */
  ghost predicate FromFirsts(formats: seq<Format>, seen: set<string>, r: seq<SizedQuality>) {
    forall i :: 0 <= i < |r| ==> FirstEntry(formats, seen, r[i])
  }

  /** e is the entry of the first format to carry its label. */
  ghost predicate FirstEntry(formats: seq<Format>, seen: set<string>, e: SizedQuality) {
    exists k :: FirstAt(formats, seen, k) && e == Entry(formats[k])
  }

  lemma {:induction false} FirstByLabelFirst(formats: seq<Format>, seen: set<string>)
    ensures FromFirsts(formats, seen, FirstByLabel(formats, seen))
  {
    if formats != [] {
      var tail := formats[1..];
      var r := FirstByLabel(formats, seen);
      var isNew := NewLabel(formats[0], seen);
      var seen' := if isNew then seen + {formats[0].qualityLabel.value} else seen;
      var rest := FirstByLabel(tail, seen');
      FirstByLabelFirst(tail, seen');
      assert FromFirsts(tail, seen', rest);
      var shift := if isNew then 1 else 0;
      assert r == (if isNew then [Entry(formats[0])] else []) + rest;
      forall i | 0 <= i < |r|
        ensures FirstEntry(formats, seen, r[i])
      {
        if isNew && i == 0 {
          assert FirstAt(formats, seen, 0);
        } else {
          var n := i - shift;
          assert 0 <= n < |rest| && r[i] == rest[n];
          assert FirstEntry(tail, seen', rest[n]);
          var k' :| FirstAt(tail, seen', k') && rest[n] == Entry(tail[k']);
          assert formats[k' + 1] == tail[k'];
          var q := tail[k'].qualityLabel.value;
          forall j | 0 <= j < k' + 1
            ensures !LabelAt(formats, j, q)
          {
            if j > 0 {
              assert formats[j] == tail[j - 1];
              assert !LabelAt(tail, j - 1, q);
            }
          }
          assert FirstAt(formats, seen, k' + 1);
        }
      }
      assert FromFirsts(formats, seen, r);
    }
  }

  lemma {:induction false} OccursOnce(c: seq<SizedQuality>, seen: set<string>, x: SizedQuality)
    requires DistinctLabels(c, seen) && x in c
    ensures multiset(c)[x] == 1
  {
    assert c == [c[0]] + c[1..];
    assert DistinctLabels(c[1..], seen) by {
      forall i, j | 0 <= i < j < |c[1..]|
        ensures c[1..][i].quality != c[1..][j].quality
      {
        assert c[1..][i] == c[i + 1] && c[1..][j] == c[j + 1];
      }
    }
    if c[0] == x {
      assert x !in c[1..] by {
        forall i | 0 <= i < |c[1..]|
          ensures c[1..][i] != x
        {
          assert c[1..][i] == c[i + 1];
        }
      }
    } else {
      OccursOnce(c[1..], seen, x);
    }
  }

  lemma OccursTwice(r: seq<SizedQuality>, i: nat, j: nat)
    requires i < j < |r| && r[i] == r[j]
    ensures multiset(r)[r[i]] >= 2
  {
    assert r == r[..j] + [r[j]] + r[j + 1..];
    assert r[..j][i] == r[i];
  }

  /** Whatever order the entries end up in, the list offers each label once,
      offers exactly the labels some format carries, and holds only the entry
      of the first format with each label. */
  lemma ReorderedQualities(formats: seq<Format>, r: seq<SizedQuality>)
    requires multiset(r) == multiset(FirstByLabel(formats, {}))
    ensures DistinctLabels(r, {})
    ensures forall q :: Offers(r, q) <==> Labelled(formats, q)
    ensures FromFirsts(formats, {}, r)
  {
    var c := FirstByLabel(formats, {});
    FirstByLabelDistinct(formats, {});
    FirstByLabelFirst(formats, {});
    forall i | 0 <= i < |r|
      ensures r[i] in c
    {
      assert r[i] in multiset(r);
    }
    forall i, j | 0 <= i < j < |r|
      ensures r[i].quality != r[j].quality
    {
      if r[i].quality == r[j].quality {
        var m :| 0 <= m < |c| && c[m] == r[i];
        var m' :| 0 <= m' < |c| && c[m'] == r[j];
        assert m == m';
        OccursTwice(r, i, j);
        OccursOnce(c, {}, r[i]);
        assert false;
      }
    }
    forall q
      ensures Offers(r, q) <==> Labelled(formats, q)
    {
      FirstByLabelCovers(formats, {}, q);
      if Offers(r, q) {
        var i :| 0 <= i < |r| && r[i].quality == q;
        var m :| 0 <= m < |c| && c[m] == r[i];
        assert Offers(c, q);
      }
      if Offers(c, q) {
        var m :| 0 <= m < |c| && c[m].quality == q;
        assert c[m] in multiset(r);
        var i :| 0 <= i < |r| && r[i] == c[m];
        assert Offers(r, q);
      }
    }
    forall i | 0 <= i < |r|
      ensures FirstEntry(formats, {}, r[i])
    {
      var m :| 0 <= m < |c| && c[m] == r[i];
      assert FirstEntry(formats, {}, c[m]);
    }
  }

  /** The two forEach loops over the combined, then the video-only formats:
      a label is taken the first time it appears with a truthy value. */
  method CollectQualities(combined: seq<Format>, videoOnly: seq<Format>) returns (qualities: seq<SizedQuality>)
    ensures qualities == FirstByLabel(combined + videoOnly, {})
  {
    qualities := [];
    var qualitySet: set<string> := {};
    var i := 0;
    while i < |combined|
      invariant 0 <= i <= |combined|
      invariant qualities + FirstByLabel(combined[i..] + videoOnly, qualitySet) == FirstByLabel(combined + videoOnly, {})
    {
      var format := combined[i];
      var rest := combined[i..] + videoOnly;
      assert rest[0] == format && rest[1..] == combined[i + 1..] + videoOnly;
      if Present(format.qualityLabel) && format.qualityLabel.value !in qualitySet {
        qualitySet := qualitySet + {format.qualityLabel.value};
        qualities := qualities + [Entry(format)];
      }
      i := i + 1;
    }
    assert combined[i..] + videoOnly == videoOnly;
    i := 0;
    while i < |videoOnly|
      invariant 0 <= i <= |videoOnly|
      invariant qualities + FirstByLabel(videoOnly[i..], qualitySet) == FirstByLabel(combined + videoOnly, {})
    {
      var format := videoOnly[i];
      assert videoOnly[i..][0] == format && videoOnly[i..][1..] == videoOnly[i + 1..];
      if Present(format.qualityLabel) && format.qualityLabel.value !in qualitySet {
        qualitySet := qualitySet + {format.qualityLabel.value};
        qualities := qualities + [Entry(format)];
      }
      i := i + 1;
    }
    assert videoOnly[i..] == [];
  }

  // ---- Sorting by the digits of the label (api/server.js:89-94)

  /** `s.replace(/\D/g, '')`: the decimal digits of s, in order. */
  function DigitsOf(s: string): string {
    if s == [] then [] else (if IsDigit(s[0]) then [s[0]] else []) + DigitsOf(s[1..])
  }

  /** The replace keeps only digits and never lengthens the label. */
  lemma {:induction false} DigitsOfKeepsDigits(s: string)
    ensures AllDigits(DigitsOf(s)) && |DigitsOf(s)| <= |s|
  {
    if s != [] {
      DigitsOfKeepsDigits(s[1..]);
    }
  }

  /** parseInt of those digits: None stands for NaN, when there are none.
      The digit test never fails (DigitsOfKeepsDigits); it makes the
      reading well defined without unfolding the replace. */
  function ResolutionKey(qualityLabel: string): Option<nat> {
    var d := DigitsOf(qualityLabel);
    if d == [] || !AllDigits(d) then None else Some(DigitsValue(d))
  }

  /** The comparator `bRes - aRes` is positive for (b, a): a belongs before b.
      A NaN difference counts as a tie. */
  predicate Outranks(a: SizedQuality, b: SizedQuality) {
    KeyAbove(ResolutionKey(a.quality), ResolutionKey(b.quality))
  }

  predicate KeyAbove(x: Option<nat>, y: Option<nat>) {
    x.Some? && y.Some? && x.value > y.value
  }

  predicate AllKeyed(s: seq<SizedQuality>) {
    forall i :: 0 <= i < |s| ==> ResolutionKey(s[i].quality).Some?
  }

  /** No entry outranks an earlier one. */
  predicate SortedByKey(s: seq<SizedQuality>) {
    forall i, j :: 0 <= i < j < |s| ==> !Outranks(s[j], s[i])
  }

  function Pow10(n: nat): nat {
    if n == 0 then 1 else 10 * Pow10(n - 1)
  }

  lemma {:induction false} DigitsOfAppend(a: string, b: string)
    ensures DigitsOf(a + b) == DigitsOf(a) + DigitsOf(b)
  {
    if a != [] {
      var head := if IsDigit(a[0]) then [a[0]] else [];
      assert (a + b)[0] == a[0] && (a + b)[1..] == a[1..] + b;
      assert DigitsOf(a + b) == head + DigitsOf(a[1..] + b);
      assert DigitsOf(a) == head + DigitsOf(a[1..]);
      DigitsOfAppend(a[1..], b);
    } else {
      assert a + b == b;
    }
  }

  lemma {:induction false} DigitsOfDigits(s: string)
    requires AllDigits(s)
    ensures DigitsOf(s) == s
  {
    if s != [] {
      DigitsOfDigits(s[1..]);
      assert s == [s[0]] + s[1..];
    }
  }

  /** Reading digits after digits shifts the first number left. */
  lemma {:induction false} DigitsValueAppend(a: string, b: string)
    requires AllDigits(a) && AllDigits(b)
    ensures DigitsValue(a + b) == DigitsValue(a) * Pow10(|b|) + DigitsValue(b)
  {
    if b == [] {
      assert a + b == a;
    } else {
      var b', d := b[..|b| - 1], b[|b| - 1] as int - '0' as int;
      assert (a + b)[..|a + b| - 1] == a + b' && (a + b)[|a + b| - 1] == b[|b| - 1];
      assert DigitsValue(a + b) == DigitsValue(a + b') * 10 + d;
      DigitsValueAppend(a, b');
      var x, p := DigitsValue(a), Pow10(|b'|);
      assert DigitsValue(a + b) == (x * p + DigitsValue(b')) * 10 + d;
      ShiftDecimal(x, p, DigitsValue(b'), d);
      assert Pow10(|b|) == p * 10;
    }
  }

  /** Appending a digit multiplies the number read so far by ten. A bridge
      that keeps this multiplication step out of the larger digit proofs. */
  lemma ShiftDecimal(x: int, p: int, y: int, d: int)
    ensures (x * p + y) * 10 + d == x * (p * 10) + (y * 10 + d)
  {
  }

  lemma {:induction false} Pow10AtLeast100(n: nat)
    requires n >= 2
    ensures Pow10(n) >= 100
  {
    if n > 2 {
      Pow10AtLeast100(n - 1);
    }
  }

  /** The key of "{h}p" is h. */
  lemma KeyOfPlainLabel(h: nat)
    ensures ResolutionKey(NatStr(h) + "p") == Some(h)
  {
    var hs := NatStr(h);
    assert DigitsOf("p") == [];
    DigitsOfAppend(hs, "p");
    DigitsOfDigits(hs);
    assert DigitsOf(hs + "p") == hs;
    NatStrRoundTrip(h);
  }

  /** The key of "{h}p{fps}" is h followed by the digits of fps. */
  lemma KeyOfFrameRateLabel(h: nat, fps: nat)
    ensures ResolutionKey(NatStr(h) + "p" + NatStr(fps)) == Some(h * Pow10(|NatStr(fps)|) + fps)
  {
    var hs, fs := NatStr(h), NatStr(fps);
    NatStrRoundTrip(h);
    NatStrRoundTrip(fps);
    DigitsAroundLetter(hs, fs);
    KeyOfDigits(hs + "p" + fs, hs + fs);
    DigitsValueAppend(hs, fs);
  }

  /** A label whose digits form a non-empty run has that run's value as its key. */
  lemma KeyOfDigits(text: string, d: string)
    requires DigitsOf(text) == d && d != [] && AllDigits(d)
    ensures ResolutionKey(text) == Some(DigitsValue(d))
  {
  }

  /** The letter between two digit runs is dropped and the runs are joined. */
  lemma DigitsAroundLetter(hs: string, fs: string)
    requires AllDigits(hs) && AllDigits(fs)
    ensures DigitsOf(hs + "p" + fs) == hs + fs
  {
    assert DigitsOf("p") == [];
    DigitsOfAppend(hs + "p", fs);
    DigitsOfAppend(hs, "p");
    DigitsOfDigits(hs);
    DigitsOfDigits(fs);
  }

  /** A label's key reads all its digits at once, so a frame-rate suffix of
      two or more digits multiplies the height by a hundred or more: "1080p60"
      (108060) sorts before "2160p" (2160) and "4320p" (4320). */
  lemma FrameRateSuffixOutranks(h: nat, fps: nat, other: nat, format: string, size: string)
    requires fps >= 10 && other < 100 * h
    ensures Outranks(SizedQuality(NatStr(h) + "p" + NatStr(fps), format, size),
                     SizedQuality(NatStr(other) + "p", format, size))
  {
    var p := Pow10(|NatStr(fps)|);
    KeyOfPlainLabel(other);
    KeyOfFrameRateLabel(h, fps);
    Pow10AtLeast100(|NatStr(fps)|);
    MulMonotone(100, p, h);
    assert h * p + fps > other;
  }

  /** Exchanges two cells. */
  method Swap(a: array<SizedQuality>, i: nat, j: nat)
    requires i < a.Length && j < a.Length
    modifies a
    ensures a[..] == old(a[..])[i := old(a[j])][j := old(a[i])]
    ensures multiset(a[..]) == multiset(old(a[..]))
  {
    a[i], a[j] := a[j], a[i];
  }

  /** The sort key of every entry. */
  function Keys(s: seq<SizedQuality>): (ks: seq<Option<nat>>)
    ensures |ks| == |s|
  {
    seq(|s|, i requires 0 <= i < |s| => ResolutionKey(s[i].quality))
  }

  /** No key among the first n is above an earlier one. */
  predicate KeysSorted(ks: seq<Option<nat>>, n: nat)
    requires n <= |ks|
  {
    forall k, l :: 0 <= k < l < n ==> !KeyAbove(ks[l], ks[k])
  }

  predicate AllSome(ks: seq<Option<nat>>) {
    forall k :: 0 <= k < |ks| ==> ks[k].Some?
  }

  /** Sortedness and keyedness of a list are those of its keys. */
  lemma KeysOfSorted(s: seq<SizedQuality>)
    ensures AllKeyed(s) <==> AllSome(Keys(s))
    ensures KeysSorted(Keys(s), |s|) ==> SortedByKey(s)
  {
    var ks := Keys(s);
    assert forall k :: 0 <= k < |s| ==> ks[k] == ResolutionKey(s[k].quality);
  }

  /** Keys in the middle of a pass that sinks key j: ignoring j, the first
      i + 1 keys are ordered, and no key after j and up to i is above it. */
  predicate Sinking(ks: seq<Option<nat>>, i: nat, j: nat)
    requires j <= i < |ks|
  {
    && AllSome(ks)
    && (forall k, l :: 0 <= k < l <= i && k != j && l != j ==> !KeyAbove(ks[l], ks[k]))
    && (forall l :: j < l <= i ==> !KeyAbove(ks[l], ks[j]))
  }

  lemma SinkStart(ks: seq<Option<nat>>, i: nat)
    requires i < |ks| && AllSome(ks) && KeysSorted(ks, i)
    ensures Sinking(ks, i, i)
  {
  }

  /** Exchanging key j with a lower key before it moves the pass one step left. */
  lemma SinkStep(ks: seq<Option<nat>>, i: nat, j: nat)
    requires 0 < j <= i < |ks| && Sinking(ks, i, j) && KeyAbove(ks[j], ks[j - 1])
    ensures Sinking(ks[j - 1 := ks[j]][j := ks[j - 1]], i, j - 1)
  {
    var ks' := ks[j - 1 := ks[j]][j := ks[j - 1]];
    forall l | j - 1 < l <= i
      ensures !KeyAbove(ks'[l], ks'[j - 1])
    {
      if l > j {
        assert !KeyAbove(ks[l], ks[j]);
      }
    }
  }

  /** A pass stops when key j is not above its left neighbour; by transitivity
      of the order on keys, the first i + 1 keys are then ordered. */
  lemma SinkDone(ks: seq<Option<nat>>, i: nat, j: nat)
    requires j <= i < |ks| && Sinking(ks, i, j)
    requires j == 0 || !KeyAbove(ks[j], ks[j - 1])
    ensures KeysSorted(ks, i + 1)
  {
    if j > 0 {
      forall k | 0 <= k < j - 1
        ensures !KeyAbove(ks[j], ks[k])
      {
        assert !KeyAbove(ks[j - 1], ks[k]);
      }
    }
  }

  /** Exchanging two entries exchanges their keys. */
  lemma KeysSwap(s: seq<SizedQuality>, i: nat, j: nat)
    requires i < |s| && j < |s|
    ensures Keys(s[i := s[j]][j := s[i]]) == Keys(s)[i := Keys(s)[j]][j := Keys(s)[i]]
  {
  }

  /** One pass of the insertion sort: moves a[i] left past every entry it
      outranks, so that the first i + 1 keys are ordered when the first i were. */
  method SinkInto(a: array<SizedQuality>, i: nat, ghost keyed: bool)
    requires i < a.Length
    requires keyed ==> AllSome(Keys(a[..])) && KeysSorted(Keys(a[..]), i)
    modifies a
    ensures multiset(a[..]) == multiset(old(a[..]))
    ensures keyed ==> AllSome(Keys(a[..])) && KeysSorted(Keys(a[..]), i + 1)
  {
    ghost var ks := Keys(a[..]);
    if keyed {
      SinkStart(ks, i);
    }
    var j := i;
    while j > 0 && Outranks(a[j], a[j - 1])
      invariant 0 <= j <= i
      invariant multiset(a[..]) == multiset(old(a[..]))
      invariant ks == Keys(a[..])
      invariant keyed ==> Sinking(ks, i, j)
    {
      assert ks[j] == ResolutionKey(a[j].quality) && ks[j - 1] == ResolutionKey(a[j - 1].quality);
      if keyed {
        SinkStep(ks, i, j);
      }
      KeysSwap(a[..], j - 1, j);
      Swap(a, j - 1, j);
      ks := ks[j - 1 := ks[j]][j := ks[j - 1]];
      j := j - 1;
    }
    if keyed {
      assert j > 0 ==> ks[j] == ResolutionKey(a[j].quality) && ks[j - 1] == ResolutionKey(a[j - 1].quality);
      SinkDone(ks, i, j);
    }
  }

  /** `availableQualities.sort((a, b) => bRes - aRes)` as a stable insertion
      sort: the result is a permutation, and when every label has digits it
      lists the keys from highest to lowest. */
  method SortByKey(a: array<SizedQuality>)
    modifies a
    ensures multiset(a[..]) == multiset(old(a[..]))
    ensures AllKeyed(old(a[..])) ==> SortedByKey(a[..])
  {
    KeysOfSorted(a[..]);
    ghost var keyed := AllKeyed(a[..]);
    var i := 0;
    while i < a.Length
      invariant 0 <= i <= a.Length
      invariant multiset(a[..]) == multiset(old(a[..]))
      invariant keyed ==> AllSome(Keys(a[..])) && KeysSorted(Keys(a[..]), i)
    {
      SinkInto(a, i, keyed);
      i := i + 1;
    }
    KeysOfSorted(a[..]);
  }

  // ---- The download file name (api/server.js:191)

  /** `.replace(/[^a-zA-Z0-9]/g, '_')` over UTF-16 code units. */
  function MaskAll(t: seq<RoutesQualities.CodeUnit>): (r: seq<RoutesQualities.CodeUnit>)
    ensures |r| == |t|
    ensures forall i :: 0 <= i < |t| ==>
              r[i] == if RoutesQualities.IsAlnum(t[i]) then t[i] else RoutesQualities.Underscore
  {
    if t == [] then []
    else [if RoutesQualities.IsAlnum(t[0]) then t[0] else RoutesQualities.Underscore] + MaskAll(t[1..])
  }

  /** The title with every code unit other than an ASCII letter or digit
      replaced by an underscore: as many characters as the title has code units. */
  function FilenameStem(title: string): (stem: string)
    ensures RoutesQualities.Units(stem) == MaskAll(RoutesQualities.Utf16(title))
    ensures |stem| == |RoutesQualities.Utf16(title)|
  {
    RoutesQualities.AsciiText(MaskAll(RoutesQualities.Utf16(title)))
  }

  function DownloadFilename(title: string, format: Option<string>): (r: string)
    ensures var ext := OrElse(format, "mp4");
            var n := |r| - |ext| - 1;
            && n >= 0 && r[n] == '.' && r[n + 1..] == ext
            && forall i :: 0 <= i < n ==> RoutesQualities.IsWordUnit(r[i] as int)
    ensures r[..|r| - |OrElse(format, "mp4")| - 1] == FilenameStem(title)
  {
    var stem := FilenameStem(title);
    var units := MaskAll(RoutesQualities.Utf16(title));
    assert forall i :: 0 <= i < |stem| ==> stem[i] as int == RoutesQualities.Units(stem)[i] == units[i];
    var r := stem + "." + OrElse(format, "mp4");
    assert r[..|stem|] == stem;
    r
  }

  /** A character Node accepts in a header value: a tab, visible ASCII or
      space, or a code unit from 0x80 to 0xff. `res.setHeader` throws on any other. */
  predicate HeaderChar(c: char) {
    c == '\t' || 0x20 <= c as int <= 0x7e || 0x80 <= c as int <= 0xff
  }

  predicate HeaderValueAccepted(v: string) {
    forall i :: 0 <= i < |v| ==> HeaderChar(v[i])
  }

  /** The Content-Disposition value of api/server.js:193. */
  function Disposition(filename: string): string {
    "attachment; filename=\"" + filename + "\""
  }

  /** The title is masked to ASCII, so Node refuses the header exactly when
      the query's format (or the mp4 default) holds a character it rejects. */
  lemma DispositionAcceptedIff(title: string, format: Option<string>)
    ensures var v := Disposition(DownloadFilename(title, format));
            HeaderValueAccepted(v) <==> HeaderValueAccepted(OrElse(format, "mp4"))
  {
    var ext := OrElse(format, "mp4");
    var r := DownloadFilename(title, format);
    var n := |r| - |ext| - 1;
    var v := Disposition(r);
    var k := |"attachment; filename=\""|;
    assert v[k..k + |r|] == r;
    if HeaderValueAccepted(ext) {
      forall i | 0 <= i < |v| ensures HeaderChar(v[i]) {
        if k <= i < k + n {
          assert v[i] == r[i - k];
          assert RoutesQualities.IsWordUnit(r[i - k] as int);
        } else if k + n < i < k + |r| {
          assert v[i] == r[i - k] == ext[i - k - n - 1];
        }
      }
    }
    if HeaderValueAccepted(v) {
      forall j | 0 <= j < |ext| ensures HeaderChar(ext[j]) {
        assert ext[j] == r[n + 1 + j] == v[k + n + 1 + j];
      }
    }
  }

  lemma {:induction false} CollapseWithoutSpaces(t: seq<RoutesQualities.CodeUnit>)
    requires forall i :: 0 <= i < |t| ==> !RoutesQualities.IsSpace(t[i])
    ensures RoutesQualities.CollapseSpaces(t) == t
  {
    if t != [] {
      CollapseWithoutSpaces(t[1..]);
    }
  }

  lemma UnitsInjective(s: string, s': string)
    requires RoutesQualities.Units(s) == RoutesQualities.Units(s')
    ensures s == s'
  {
    assert |s| == |s'|;
    forall i | 0 <= i < |s|
      ensures s[i] == s'[i]
    {
      assert RoutesQualities.Units(s)[i] == RoutesQualities.Units(s')[i];
    }
  }

  /** For a title without white space both servers pick the same stem; they
      differ only in how runs of white space are written. */
  lemma StemsAgreeWithoutSpaces(title: string)
    requires forall i :: 0 <= i < |RoutesQualities.Utf16(title)| ==> !RoutesQualities.IsSpace(RoutesQualities.Utf16(title)[i])
    ensures FilenameStem(title) == RoutesQualities.FilenameStem(title)
  {
    var t := RoutesQualities.Utf16(title);
    var masked := RoutesQualities.MaskSpecial(t);
    assert masked == MaskAll(t);
    CollapseWithoutSpaces(masked);
    UnitsInjective(FilenameStem(title), RoutesQualities.FilenameStem(title));
  }

  // ---- Session records (api/server.js:205-232)

  /** Math.round(remaining / speed) when the total is known and bytes have
      arrived, else 0. */
  function SessionEta(d: nat, t: nat, elapsedMs: nat): int {
    if t > 0 then EtaSeconds(d, t, elapsedMs) else 0
  }

  /** The record a chunk stores. */
  function ChunkSession(d: nat, t: nat, elapsedMs: nat, speedText: string): (s: Session)
    ensures s.status == "downloading"
    ensures t > 0 && d <= t ==> s.progress <= 100
    ensures t == 0 ==> s.progress == 0 && s.totalSize == "Unknown" && s.eta == "0s"
  {
    Session(
      if t > 0 then Percent(d, t) else 0,
      MegabyteText(d),
      if t > 0 then MegabyteText(t) else "Unknown",
      speedText,
      IntStr(SessionEta(d, t, elapsedMs)) + "s",
      "downloading")
  }

  /** The record the `end` callback stores: complete at the received size. */
  function CompletedSession(d: nat): (s: Session)
    ensures s.progress == 100 && s.status == "completed"
    ensures s.downloadedSize == s.totalSize == MegabyteText(d) && s.eta == "0s"
  {
    Session(100, MegabyteText(d), MegabyteText(d), "0 MB/s", "0s", "completed")
  }

  /** While the bytes stay within a known total, a chunk's record shows a
      percentage that does not go down from the previous chunk's and an ETA
      that is a plain non-negative number of seconds. */
  lemma ChunkSessionsAdvance(before: seq<nat>, chunk: nat, t: nat, e1: nat, e2: nat, v1: string, v2: string)
    requires t > 0 && Sum(before) + chunk <= t
    ensures var s1, s2 := ChunkSession(Sum(before), t, e1, v1), ChunkSession(Sum(before + [chunk]), t, e2, v2);
            s1.progress <= s2.progress <= 100
            && AllDigits(s2.eta[..|s2.eta| - 1]) && s2.eta[|s2.eta| - 1] == 's'
  {
    var d := Sum(before + [chunk]);
    assert (before + [chunk])[..|before|] == before;
    PercentMonotone(Sum(before), d, t);
    EtaBounds(d, t, e2);
    var eta := IntStr(SessionEta(d, t, e2)) + "s";
    assert eta[..|eta| - 1] == NatStr(SessionEta(d, t, e2));
  }

  /** The module-level `sessions` and `videoCache` maps. Sessions are never removed. */
  class VercelApi {
    var sessions: map<string, Session>
    var videoCache: map<string, VideoInfo<SizedQuality>>

    constructor ()
      ensures sessions == map[] && videoCache == map[]
    {
      sessions := map[];
      videoCache := map[];
    }

    /** getVideoInfo: the cached info for `url`, or the freshly collected,
        sorted and built info, which is then cached; a failure of the library
        or of the build is reported with the prefix and caches nothing. */
    method GetVideoInfo(url: string, fetched: Result<FetchedInfo, string>)
      returns (r: Result<VideoInfo<SizedQuality>, string>)
      modifies this
      ensures sessions == old(sessions)
      ensures url in old(videoCache) ==> r == Success(old(videoCache)[url]) && videoCache == old(videoCache)
      ensures url !in old(videoCache) && fetched.Failure? ==>
                r == Failure("Failed to fetch video info: " + fetched.error) && videoCache == old(videoCache)
      ensures url !in old(videoCache) && fetched.Success? ==>
                var info := fetched.value;
                var collected := FirstByLabel(info.primaryFormats + info.secondaryFormats, {});
                var built := MakeVideoInfo(info, collected);
                && (r.Success? <==> built.Success?)
                && (r.Failure? ==> r.error == "Failed to fetch video info: " + built.error && videoCache == old(videoCache))
                && (r.Success? ==>
                      && r == MakeVideoInfo(info, r.value.availableQualities)
                      && multiset(r.value.availableQualities) == multiset(collected)
                      && (AllKeyed(collected) ==> SortedByKey(r.value.availableQualities))
                      && videoCache == old(videoCache)[url := r.value])
    {
      if url in videoCache {
        return Success(videoCache[url]);
      }
      if fetched.Failure? {
        return Failure("Failed to fetch video info: " + fetched.error);
      }
      var info := fetched.value;
      var collected := CollectQualities(info.primaryFormats, info.secondaryFormats);
      var a := new SizedQuality[|collected|](k requires 0 <= k < |collected| => collected[k]);
      assert a[..] == collected;
      SortByKey(a);
      var built := MakeVideoInfo(info, a[..]);
      if built.Failure? {
        return Failure("Failed to fetch video info: " + built.error);
      }
      videoCache := videoCache[url := built.value];
      r := built;
    }

    /** POST /api/analyze: 400 for a missing or rejected URL; otherwise the
        info getVideoInfo yields, or 500 when it fails. */
    method Analyze(url: Option<string>, urlValid: bool, fetched: Result<FetchedInfo, string>)
      returns (reply: Reply<VideoInfo<SizedQuality>>)
      modifies this
      ensures sessions == old(sessions)
      ensures !Present(url) || !urlValid ==>
                reply == Error(400, "Invalid YouTube URL") && videoCache == old(videoCache)
      ensures Present(url) && urlValid ==>
                && (reply.Ok? <==>
                      url.value in old(videoCache)
                      || (fetched.Success? && fetched.value.lengthSeconds * 1000 <= MaxDateMs && |fetched.value.thumbnails| > 0))
                && (reply.Ok? ==> url.value in videoCache && reply.body == videoCache[url.value])
                && (url.value in old(videoCache) ==> videoCache == old(videoCache))
                && (reply.Error? ==> reply == Error(500, AnalyzeFailed) && videoCache == old(videoCache))
      ensures Present(url) && urlValid && url.value !in old(videoCache) && reply.Ok? ==>
                var info := fetched.value;
                var collected := FirstByLabel(info.primaryFormats + info.secondaryFormats, {});
                && fetched.Success?
                && MakeVideoInfo(info, reply.body.availableQualities) == Success(reply.body)
                && multiset(reply.body.availableQualities) == multiset(collected)
                && (AllKeyed(collected) ==> SortedByKey(reply.body.availableQualities))
                && videoCache == old(videoCache)[url.value := reply.body]
    {
      if !Present(url) || !urlValid {
        return Error(400, "Invalid YouTube URL");
      }
      var info := GetVideoInfo(url.value, fetched);
      if info.Failure? {
        return Error(500, AnalyzeFailed);
      }
      reply := Ok(info.value);
    }

    /** POST /api/start-download: 400 for an invalid request; otherwise a
        starting record under the id made from the clock, which is returned. */
    method StartDownload(requestValid: bool, nowId: string) returns (reply: Reply<string>)
      modifies this
      ensures videoCache == old(videoCache)
      ensures !requestValid ==> reply == Error(400, "Invalid download request") && sessions == old(sessions)
      ensures requestValid ==> reply == Ok(nowId) && sessions == old(sessions)[nowId := StartingSession]
    {
      if !requestValid {
        return Error(400, "Invalid download request");
      }
      sessions := sessions[nowId := StartingSession];
      reply := Ok(nowId);
    }

    /** GET /api/progress/:sessionId: the session record, or 404. */
    method Progress(sessionId: string) returns (reply: Reply<Session>)
      ensures sessionId in sessions ==> reply == Ok(sessions[sessionId])
      ensures sessionId !in sessions ==> reply == Error(404, "Session not found")
    {
      if sessionId !in sessions {
        return Error(404, "Session not found");
      }
      reply := Ok(sessions[sessionId]);
    }

    /** GET /api/download up to the first byte (api/server.js:171-200). The
        library's answers enter as parameters; `selected` is None when its
        format choice throws. A Content-Disposition value Node refuses throws
        into the catch, which answers 500. Otherwise the answer is the file
        name and a stream whose callbacks update the session named in the
        query, if any. */
    method Download(url: Option<string>, urlValid: bool, format: Option<string>, sessionId: Option<string>,
                    fetched: Result<FetchedInfo, string>, selected: Option<Format>)
      returns (reply: Reply<string>, stream: VercelStream?)
      ensures reply.Error? <==> stream == null
      ensures !Present(url) || !urlValid ==> reply == Error(400, "Invalid YouTube URL")
      ensures Present(url) && urlValid && (fetched.Failure? || selected.None?) ==>
                reply == Error(500, "Download failed")
      ensures Present(url) && urlValid && fetched.Success? && selected.Some?
                && !HeaderValueAccepted(OrElse(format, "mp4")) ==>
                reply == Error(500, "Download failed")
      ensures Present(url) && urlValid && fetched.Success? && selected.Some?
                && HeaderValueAccepted(OrElse(format, "mp4")) ==>
                var total := if selected.value.contentLength.Some? then selected.value.contentLength.value else 0;
                && reply == Ok(DownloadFilename(fetched.value.title, format))
                && fresh(stream) && stream.Valid() && stream.api == this
                && stream.sessionId == sessionId && stream.totalBytes == total
                && stream.downloadedBytes == 0 && stream.received == []
    {
      if !Present(url) || !urlValid {
        return Error(400, "Invalid YouTube URL"), null;
      }
      if fetched.Failure? || selected.None? {
        return Error(500, "Download failed"), null;
      }
      var filename := DownloadFilename(fetched.value.title, format);
      DispositionAcceptedIff(fetched.value.title, format);
      if !HeaderValueAccepted(Disposition(filename)) {
        return Error(500, "Download failed"), null;
      }
      var total := if selected.value.contentLength.Some? then selected.value.contentLength.value else 0;
      stream := new VercelStream(this, sessionId, total);
      reply := Ok(filename);
    }
  }

  /** The state the stream callbacks share: the session id from the query, the
      total from the chosen format (0 when unknown) and the running byte count. */
  class VercelStream {
    const api: VercelApi
    const sessionId: Option<string>
    const totalBytes: nat
    var downloadedBytes: nat
    /** The lengths of the chunks received so far. */
    ghost var received: seq<nat>

    ghost predicate Valid()
      reads this
    {
      downloadedBytes == Sum(received)
    }

    /** The session id names a live session. */
    predicate Tracked()
      reads this, api
    {
      Present(sessionId) && sessionId.value in api.sessions
    }

    constructor (api: VercelApi, sessionId: Option<string>, totalBytes: nat)
      ensures Valid() && received == [] && downloadedBytes == 0
      ensures this.api == api && this.sessionId == sessionId && this.totalBytes == totalBytes
    {
      this.api := api;
      this.sessionId := sessionId;
      this.totalBytes := totalBytes;
      downloadedBytes := 0;
      received := [];
    }

    /** The `data` callback: the byte count grows by the chunk, and a tracked
        session gets the chunk's record; nothing else changes. */
    method OnData(chunkLength: nat, elapsedMs: nat, speedText: string)
      requires Valid()
      modifies this, api
      ensures Valid() && received == old(received) + [chunkLength]
      ensures downloadedBytes == old(downloadedBytes) + chunkLength
      ensures api.videoCache == old(api.videoCache)
      ensures old(Tracked()) ==>
                api.sessions == old(api.sessions)[sessionId.value := ChunkSession(downloadedBytes, totalBytes, elapsedMs, speedText)]
      ensures !old(Tracked()) ==> api.sessions == old(api.sessions)
    {
      downloadedBytes := downloadedBytes + chunkLength;
      received := received + [chunkLength];
      assert received[..|received| - 1] == old(received);
      if Present(sessionId) && sessionId.value in api.sessions {
        api.sessions := api.sessions[sessionId.value := ChunkSession(downloadedBytes, totalBytes, elapsedMs, speedText)];
      }
    }

    /** The `end` callback: a tracked session is marked completed at the
        received size. */
    method OnEnd()
      modifies api
      ensures api.videoCache == old(api.videoCache)
      ensures old(Tracked()) ==> api.sessions == old(api.sessions)[sessionId.value := CompletedSession(downloadedBytes)]
      ensures !old(Tracked()) ==> api.sessions == old(api.sessions)
    {
      if Present(sessionId) && sessionId.value in api.sessions {
        api.sessions := api.sessions[sessionId.value := CompletedSession(downloadedBytes)];
      }
    }

    /** The `error` callback: a 500 answer; the session keeps its last record. */
    method OnError() returns (reply: Reply<string>)
      ensures reply == Error(500, "Download failed")
    {
      reply := Error(500, "Download failed");
    }
  }
}
