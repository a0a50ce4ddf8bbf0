/**
  * The detection summary computed by `CameraFragment.onObjectDetectionResults`:
  * the first-category labels of one camera frame are filtered against an
  * allow-list, folded into three categories, counted in first-seen order and
  * rendered into the sentence that is shown and spoken.
  */
module Aggregation {

  import opened Wrappers

  /** The allow-list `detectObjectList`, in the source's order. */
  const DetectObjectList: seq<string> :=
    ["person", "chair", "couch", "bench", "bicycle", "motorcycle", "bus", "car", "train"]

  /** The labels that are counted as "vehicle". */
  const VehicleLabels: seq<string> := ["bicycle", "motorcycle", "bus", "car", "train"]

  /** The only names a summary can mention. */
  const Categories: set<string> := {"person", "chair", "vehicle"}

  /** The text shown when nothing on the allow-list was detected. */
  const NothingDetected: string := "Nothing detected."

  /** One entry of `objectCounts`, a Kotlin `Pair<String, Int>`. */
  datatype ObjectCount = ObjectCount(name: string, count: nat)

  // ---------------------------------------------------------------------------
  // Filtering and category mapping
  // ---------------------------------------------------------------------------

  /** `detectedObjects.filter { it in detectObjectList }`: keeps only
      allow-listed labels. */
  function FilterTargets(labels: seq<string>): (targets: seq<string>)
    ensures |targets| <= |labels|
    ensures forall i :: 0 <= i < |targets| ==> targets[i] in DetectObjectList
  {
    if labels == [] then []
    else (if labels[0] in DetectObjectList then [labels[0]] else []) + FilterTargets(labels[1..])
  }

  /** The filter keeps every allow-listed label as often as it occurs and
      drops every other label. */
  lemma {:induction false} FilterCounts(labels: seq<string>)
    ensures forall x :: multiset(FilterTargets(labels))[x]
                     == if x in DetectObjectList then multiset(labels)[x] else 0
  {
    if labels != [] {
      FilterCounts(labels[1..]);
      assert labels == [labels[0]] + labels[1..];
      assert multiset(labels) == multiset{labels[0]} + multiset(labels[1..]);
    }
  }

  /** The mapping lambda: couch and bench become chair, the five vehicle labels
      become vehicle, every other label stays as it is. */
  function ToCategory(detected: string): string
  {
    if detected == "couch" || detected == "bench" then "chair"
    else if detected in VehicleLabels then "vehicle"
    else detected
  }

  /** On the allow-list the mapping is onto the three categories: person from
      person alone, chair from chair, couch and bench, vehicle from the five
      vehicle labels. */
  lemma CategoryOfTarget(detected: string)
    requires detected in DetectObjectList
    ensures ToCategory(detected) in Categories
    ensures ToCategory(detected) == "person" <==> detected == "person"
    ensures ToCategory(detected) == "chair" <==> detected in ["chair", "couch", "bench"]
    ensures ToCategory(detected) == "vehicle" <==> detected in VehicleLabels
  {
  }

  /** `detectedTargets.map { ... }`. */
  function MapCategories(targets: seq<string>): seq<string>
  {
    seq(|targets|, i requires 0 <= i < |targets| => ToCategory(targets[i]))
  }

  /** The list that `groupingBy` receives: the allow-listed labels, mapped. */
  function MappedTargets(labels: seq<string>): seq<string>
  {
    MapCategories(FilterTargets(labels))
  }

  /** How many labels of a frame are counted under the name `c`, stated
      directly on the frame's labels. */
  function ExpectedCount(labels: seq<string>, c: string): nat
  {
    var m := multiset(labels);
    if c == "person" then m["person"]
    else if c == "chair" then m["chair"] + m["couch"] + m["bench"]
    else if c == "vehicle" then m["bicycle"] + m["motorcycle"] + m["bus"] + m["car"] + m["train"]
    else 0
  }

  lemma {:induction false} MapCategoriesCounts(t: seq<string>)
    ensures multiset(MapCategories(t))["person"] == multiset(t)["person"]
    ensures multiset(MapCategories(t))["chair"]
         == multiset(t)["chair"] + multiset(t)["couch"] + multiset(t)["bench"]
    ensures multiset(MapCategories(t))["vehicle"]
         == multiset(t)["vehicle"] + multiset(t)["bicycle"] + multiset(t)["motorcycle"]
          + multiset(t)["bus"] + multiset(t)["car"] + multiset(t)["train"]
  {
    if t != [] {
      MapCategoriesCounts(t[1..]);
      assert t == [t[0]] + t[1..];
      assert MapCategories(t) == [ToCategory(t[0])] + MapCategories(t[1..]);
      OneLabelCounts(t[0]);
      assert multiset(t) == multiset{t[0]} + multiset(t[1..]);
      assert multiset(MapCategories(t)) == multiset{ToCategory(t[0])} + multiset(MapCategories(t[1..]));
    }
  }

  /** The category counts contributed by a single label. */
  lemma OneLabelCounts(h: string)
    ensures var m, o := multiset{ToCategory(h)}, multiset{h};
      && m["person"] == o["person"]
      && m["chair"] == o["chair"] + o["couch"] + o["bench"]
      && m["vehicle"] == o["vehicle"] + o["bicycle"] + o["motorcycle"] + o["bus"] + o["car"] + o["train"]
  {
    if h == "couch" || h == "bench" {
      assert ToCategory(h) == "chair";
    } else if h in VehicleLabels {
      assert ToCategory(h) == "vehicle";
    } else {
      assert ToCategory(h) == h;
    }
  }

  /** Every mapped label is a category, and each category occurs exactly as
      often as the labels folded into it. */
  lemma MappedTargetsCounts(labels: seq<string>)
    ensures |MappedTargets(labels)| == |FilterTargets(labels)|
    ensures forall i :: 0 <= i < |MappedTargets(labels)| ==> MappedTargets(labels)[i] in Categories
    ensures forall c :: multiset(MappedTargets(labels))[c] == ExpectedCount(labels, c)
  {
    var t := FilterTargets(labels);
    var m := MappedTargets(labels);
    forall i | 0 <= i < |m|
      ensures m[i] in Categories
    {
      CategoryOfTarget(t[i]);
    }
    forall c ensures multiset(m)[c] == ExpectedCount(labels, c) {
      if c in Categories {
        CategoryMultiplicity(labels, c);
      } else {
        assert c !in m;
      }
    }
  }

  lemma CategoryMultiplicity(labels: seq<string>, c: string)
    requires c in Categories
    ensures multiset(MappedTargets(labels))[c] == ExpectedCount(labels, c)
  {
    if c == "vehicle" {
      VehicleMultiplicity(labels);
    } else if c == "chair" {
      ChairMultiplicity(labels);
    } else {
      PersonMultiplicity(labels);
    }
  }

  lemma PersonMultiplicity(labels: seq<string>)
    ensures multiset(MappedTargets(labels))["person"] == ExpectedCount(labels, "person")
  {
    var t := FilterTargets(labels);
    MapCategoriesCounts(t);
    FilterCounts(labels);
    assert multiset(t)["person"] == multiset(labels)["person"];
  }

  lemma ChairMultiplicity(labels: seq<string>)
    ensures multiset(MappedTargets(labels))["chair"] == ExpectedCount(labels, "chair")
  {
    MapCategoriesCounts(FilterTargets(labels));
    ChairTargets(labels);
  }

  lemma VehicleMultiplicity(labels: seq<string>)
    ensures multiset(MappedTargets(labels))["vehicle"] == ExpectedCount(labels, "vehicle")
  {
    MapCategoriesCounts(FilterTargets(labels));
    VehicleTargets(labels);
  }

  lemma VehicleTargets(labels: seq<string>)
    ensures var mt := multiset(FilterTargets(labels));
      mt["vehicle"] + mt["bicycle"] + mt["motorcycle"] + mt["bus"] + mt["car"] + mt["train"]
      == ExpectedCount(labels, "vehicle")
  {
    var mt := multiset(FilterTargets(labels));
    FilterCounts(labels);
    assert mt["vehicle"] == 0;
    assert mt["bicycle"] == multiset(labels)["bicycle"];
    assert mt["motorcycle"] == multiset(labels)["motorcycle"];
    assert mt["bus"] == multiset(labels)["bus"];
    assert mt["car"] == multiset(labels)["car"];
    assert mt["train"] == multiset(labels)["train"];
  }

  lemma ChairTargets(labels: seq<string>)
    ensures var mt := multiset(FilterTargets(labels));
      mt["chair"] + mt["couch"] + mt["bench"] == ExpectedCount(labels, "chair")
  {
    var mt := multiset(FilterTargets(labels));
    FilterCounts(labels);
    assert mt["chair"] == multiset(labels)["chair"];
    assert mt["couch"] == multiset(labels)["couch"];
    assert mt["bench"] == multiset(labels)["bench"];
  }

  // ---------------------------------------------------------------------------
  // groupingBy { it }.eachCount(): counting in first-seen order
  // ---------------------------------------------------------------------------

  function Names(counts: seq<ObjectCount>): seq<string>
  {
    seq(|counts|, i requires 0 <= i < |counts| => counts[i].name)
  }

  ghost predicate DistinctNames(counts: seq<ObjectCount>)
  {
    forall i, j :: 0 <= i < j < |counts| ==> counts[i].name != counts[j].name
  }

  /** The sum of all counts. */
  function Total(counts: seq<ObjectCount>): nat
  {
    if counts == [] then 0 else counts[0].count + Total(counts[1..])
  }

  /** The position of the first occurrence of `x` in `xs`, or `|xs|`. */
  function FirstIndex(xs: seq<string>, x: string): (k: nat)
    ensures k <= |xs|
    ensures k < |xs| <==> x in xs
    ensures k < |xs| ==> xs[k] == x
    ensures forall j :: 0 <= j < k ==> xs[j] != x
  {
    if xs == [] then 0
    else if xs[0] == x then 0
    else 1 + FirstIndex(xs[1..], x)
  }

  /** One step of `eachCount`, whose map keeps insertion order: the entry for
      `x` is incremented in place, or appended with count 1. */
  function Bump(acc: seq<ObjectCount>, x: string): seq<ObjectCount>
  {
    if acc == [] then [ObjectCount(x, 1)]
    else if acc[0].name == x then [ObjectCount(x, acc[0].count + 1)] + acc[1..]
    else [acc[0]] + Bump(acc[1..], x)
  }

  /** `groupingBy { it }.eachCount().toList()`, folding from the left. */
  function EachCount(xs: seq<string>): seq<ObjectCount>
  {
    if xs == [] then [] else Bump(EachCount(xs[..|xs| - 1]), xs[|xs| - 1])
  }

  lemma NamesCons(acc: seq<ObjectCount>)
    requires acc != []
    ensures Names(acc) == [acc[0].name] + Names(acc[1..])
  {
  }

  lemma TotalCons(c: ObjectCount, rest: seq<ObjectCount>)
    ensures Total([c] + rest) == c.count + Total(rest)
  {
    assert ([c] + rest)[1..] == rest;
  }

  lemma {:induction false} BumpExisting(acc: seq<ObjectCount>, x: string)
    requires DistinctNames(acc)
    requires x in Names(acc)
    ensures |Bump(acc, x)| == |acc|
    ensures forall i :: 0 <= i < |acc| ==>
      Bump(acc, x)[i] == ObjectCount(acc[i].name, acc[i].count + if acc[i].name == x then 1 else 0)
    ensures Total(Bump(acc, x)) == Total(acc) + 1
  {
    NamesCons(acc);
    if acc[0].name == x {
      TotalCons(ObjectCount(x, acc[0].count + 1), acc[1..]);
    } else {
      BumpExisting(acc[1..], x);
      TotalCons(acc[0], Bump(acc[1..], x));
    }
  }

  lemma {:induction false} BumpNew(acc: seq<ObjectCount>, x: string)
    requires x !in Names(acc)
    ensures Bump(acc, x) == acc + [ObjectCount(x, 1)]
    ensures Total(Bump(acc, x)) == Total(acc) + 1
  {
    if acc == [] {
      TotalCons(ObjectCount(x, 1), []);
    } else {
      NamesCons(acc);
      BumpNew(acc[1..], x);
      assert acc == [acc[0]] + acc[1..];
      TotalCons(acc[0], Bump(acc[1..], x));
    }
  }

  lemma FirstIndexSnoc(xs: seq<string>, x: string, y: string)
    ensures y in xs ==> FirstIndex(xs + [x], y) == FirstIndex(xs, y)
    ensures y !in xs && y == x ==> FirstIndex(xs + [x], y) == |xs|
  {
    var k, k' := FirstIndex(xs, y), FirstIndex(xs + [x], y);
    if y in xs {
      assert (xs + [x])[k] == y;
    } else if y == x {
      assert (xs + [x])[|xs|] == y;
    }
  }

  /** `r` is the insertion-ordered count of `xs`: one entry per distinct
      element, in the order of first occurrence, each with its number of
      occurrences, adding up to the length of `xs`. */
  ghost predicate IsCountOf(r: seq<ObjectCount>, xs: seq<string>)
  {
    && DistinctNames(r)
    && (forall x :: x in Names(r) <==> x in xs)
    && (forall i :: 0 <= i < |r| ==> r[i].count == multiset(xs)[r[i].name])
    && (forall i, j :: 0 <= i < j < |r| ==> FirstIndex(xs, r[i].name) < FirstIndex(xs, r[j].name))
    && Total(r) == |xs|
  }

  lemma StepExisting(acc: seq<ObjectCount>, init: seq<string>, x: string)
    requires IsCountOf(acc, init)
    requires x in init
    ensures IsCountOf(Bump(acc, x), init + [x])
  {
    BumpExisting(acc, x);
    assert Names(Bump(acc, x)) == Names(acc);
    BumpedCounts(acc, init, x);
    BumpedOrder(acc, init, x);
  }

  lemma BumpedCounts(acc: seq<ObjectCount>, init: seq<string>, x: string)
    requires IsCountOf(acc, init)
    requires x in init
    ensures forall i :: 0 <= i < |Bump(acc, x)| ==>
      Bump(acc, x)[i].count == multiset(init + [x])[Bump(acc, x)[i].name]
  {
    var xs, r := init + [x], Bump(acc, x);
    BumpExisting(acc, x);
    forall i | 0 <= i < |r|
      ensures r[i].count == multiset(xs)[r[i].name]
    {
      assert r[i].name == acc[i].name;
    }
  }

  lemma BumpedOrder(acc: seq<ObjectCount>, init: seq<string>, x: string)
    requires IsCountOf(acc, init)
    requires x in init
    ensures forall i, j :: 0 <= i < j < |Bump(acc, x)| ==>
      FirstIndex(init + [x], Bump(acc, x)[i].name) < FirstIndex(init + [x], Bump(acc, x)[j].name)
  {
    var xs, r := init + [x], Bump(acc, x);
    BumpExisting(acc, x);
    forall i, j | 0 <= i < j < |r|
      ensures FirstIndex(xs, r[i].name) < FirstIndex(xs, r[j].name)
    {
      assert r[i].name == acc[i].name && r[j].name == acc[j].name;
      assert Names(acc)[i] == acc[i].name && Names(acc)[j] == acc[j].name;
      FirstIndexSnoc(init, x, acc[i].name);
      FirstIndexSnoc(init, x, acc[j].name);
    }
  }

  lemma StepNew(acc: seq<ObjectCount>, init: seq<string>, x: string)
    requires IsCountOf(acc, init)
    requires x !in init
    ensures IsCountOf(Bump(acc, x), init + [x])
  {
    var xs, r := init + [x], Bump(acc, x);
    BumpNew(acc, x);
    assert Names(r) == Names(acc) + [x];
    AppendedDistinct(acc, init, x);
    AppendedCounts(acc, init, x);
    AppendedOrder(acc, init, x);
  }

  lemma AppendedDistinct(acc: seq<ObjectCount>, init: seq<string>, x: string)
    requires IsCountOf(acc, init)
    requires x !in init
    ensures DistinctNames(acc + [ObjectCount(x, 1)])
  {
    var r := acc + [ObjectCount(x, 1)];
    forall i, j | 0 <= i < j < |r|
      ensures r[i].name != r[j].name
    {
      assert Names(acc)[i] == acc[i].name;
      if j < |acc| {
        assert Names(acc)[j] == acc[j].name;
      }
    }
  }

  lemma AppendedCounts(acc: seq<ObjectCount>, init: seq<string>, x: string)
    requires IsCountOf(acc, init)
    requires x !in init
    ensures forall i :: 0 <= i < |acc| + 1 ==>
      (acc + [ObjectCount(x, 1)])[i].count == multiset(init + [x])[(acc + [ObjectCount(x, 1)])[i].name]
  {
    var r := acc + [ObjectCount(x, 1)];
    forall i | 0 <= i < |r|
      ensures r[i].count == multiset(init + [x])[r[i].name]
    {
      if i < |acc| {
        assert Names(acc)[i] == acc[i].name;
      }
    }
  }

  lemma AppendedOrder(acc: seq<ObjectCount>, init: seq<string>, x: string)
    requires IsCountOf(acc, init)
    requires x !in init
    ensures forall i, j :: 0 <= i < j < |acc| + 1 ==>
      FirstIndex(init + [x], (acc + [ObjectCount(x, 1)])[i].name)
        < FirstIndex(init + [x], (acc + [ObjectCount(x, 1)])[j].name)
  {
    var xs, r := init + [x], acc + [ObjectCount(x, 1)];
    forall i, j | 0 <= i < j < |r|
      ensures FirstIndex(xs, r[i].name) < FirstIndex(xs, r[j].name)
    {
      assert Names(acc)[i] == acc[i].name;
      FirstIndexSnoc(init, x, acc[i].name);
      if j < |acc| {
        assert Names(acc)[j] == acc[j].name;
        FirstIndexSnoc(init, x, acc[j].name);
      } else {
        FirstIndexSnoc(init, x, x);
      }
    }
  }

  /** `eachCount` computes the insertion-ordered count of its input. */
  lemma {:induction false} EachCountSpec(xs: seq<string>)
    ensures IsCountOf(EachCount(xs), xs)
  {
    if xs != [] {
      var init, x := xs[..|xs| - 1], xs[|xs| - 1];
      assert xs == init + [x];
      EachCountSpec(init);
      var acc := EachCount(init);
      if x in init {
        StepExisting(acc, init, x);
      } else {
        StepNew(acc, init, x);
      }
    }
  }

  /** Distinct names drawn from a set are at most as many as the set. */
  lemma {:induction false} DistinctWithin(counts: seq<ObjectCount>, pool: set<string>)
    requires DistinctNames(counts)
    requires forall i :: 0 <= i < |counts| ==> counts[i].name in pool
    ensures |counts| <= |pool|
  {
    if counts != [] {
      DistinctWithin(counts[1..], pool - {counts[0].name});
    }
  }

  /** A list of distinct names drawn from the three categories has at most
      three entries. */
  lemma AtMostThree(counts: seq<ObjectCount>)
    requires DistinctNames(counts)
    requires forall i :: 0 <= i < |counts| ==> counts[i].name in Categories
    ensures |counts| <= 3
  {
    DistinctWithin(counts, Categories);
  }

  /** `objectCounts` of the source. */
  function ObjectCounts(labels: seq<string>): seq<ObjectCount>
  {
    EachCount(MappedTargets(labels))
  }

  /** The category/count pairs of one frame: only person, chair and vehicle,
      each at most once, with a positive count equal to the number of labels
      folded into it, in first-seen order of the mapped labels, summing to
      `totalTargetCount`. */
  lemma ObjectCountsSpec(labels: seq<string>)
    ensures forall i :: 0 <= i < |ObjectCounts(labels)| ==>
      ObjectCounts(labels)[i].name in Categories && ObjectCounts(labels)[i].count >= 1
    ensures DistinctNames(ObjectCounts(labels))
    ensures |ObjectCounts(labels)| <= 3
    ensures forall i :: 0 <= i < |ObjectCounts(labels)| ==>
      ObjectCounts(labels)[i].count == ExpectedCount(labels, ObjectCounts(labels)[i].name)
    ensures forall c :: c in Names(ObjectCounts(labels)) <==> ExpectedCount(labels, c) > 0
    ensures forall i, j :: 0 <= i < j < |ObjectCounts(labels)| ==>
      FirstIndex(MappedTargets(labels), ObjectCounts(labels)[i].name)
        < FirstIndex(MappedTargets(labels), ObjectCounts(labels)[j].name)
    ensures Total(ObjectCounts(labels)) == |FilterTargets(labels)|
  {
    var m := MappedTargets(labels);
    var r := ObjectCounts(labels);
    EachCountSpec(m);
    MappedTargetsCounts(labels);
    forall i | 0 <= i < |r|
      ensures r[i].name in Categories && r[i].count >= 1
    {
      assert Names(r)[i] == r[i].name;
      var k :| 0 <= k < |m| && m[k] == r[i].name;
    }
    AtMostThree(r);
  }

  // ---------------------------------------------------------------------------
  // Rendering the speech
  // ---------------------------------------------------------------------------

  predicate IsDigit(ch: char)
  {
    '0' <= ch <= '9'
  }

  function DigitChar(d: nat): (ch: char)
    requires d < 10
    ensures IsDigit(ch)
  {
    ('0' as int + d) as char
  }

  function DigitValue(ch: char): (d: nat)
    requires IsDigit(ch)
    ensures d < 10 && DigitChar(d) == ch
  {
    ch as int - '0' as int
  }

  /** Kotlin's `Int.toString()` on a non-negative number: decimal digits
      without leading zeros. */
  function NatToString(n: nat): (s: string)
    ensures |s| > 0
    ensures forall i :: 0 <= i < |s| ==> IsDigit(s[i])
    ensures s[0] == '0' <==> n == 0
  {
    if n < 10 then [DigitChar(n)] else NatToString(n / 10) + [DigitChar(n % 10)]
  }

  /** The decimal value of a string of digits. */
  function ParseNat(s: string): nat
    requires forall i :: 0 <= i < |s| ==> IsDigit(s[i])
  {
    if s == [] then 0 else ParseNat(s[..|s| - 1]) * 10 + DigitValue(s[|s| - 1])
  }

  lemma {:induction false} ParseNatToString(n: nat)
    ensures ParseNat(NatToString(n)) == n
  {
    var s := NatToString(n);
    if n < 10 {
      assert s[..|s| - 1] == [];
    } else {
      ParseNatToString(n / 10);
      assert s[..|s| - 1] == NatToString(n / 10);
    }
  }

  /** `it.second.toString() + " " + it.first`. */
  function ItemText(c: ObjectCount): string
  {
    NatToString(c.count) + " " + c.name
  }

  /** The sentence for the pairs: every item but the last followed by ", ",
      the last by ".". */
  function Render(counts: seq<ObjectCount>): string
  {
    if |counts| == 0 then ""
    else if |counts| == 1 then ItemText(counts[0]) + "."
    else ItemText(counts[0]) + ", " + Render(counts[1..])
  }

  /** Every item followed by ", ": what the loop has built before its last round. */
  function Joined(counts: seq<ObjectCount>): string
  {
    if |counts| == 0 then "" else ItemText(counts[0]) + ", " + Joined(counts[1..])
  }

  lemma {:induction false} JoinedSnoc(counts: seq<ObjectCount>, c: ObjectCount)
    ensures Joined(counts + [c]) == Joined(counts) + ItemText(c) + ", "
  {
    if counts == [] {
      assert [c][1..] == [];
    } else {
      JoinedSnoc(counts[1..], c);
      assert (counts + [c])[1..] == counts[1..] + [c];
    }
  }

  lemma {:induction false} RenderAsJoined(counts: seq<ObjectCount>)
    requires |counts| > 0
    ensures Render(counts) == Joined(counts[..|counts| - 1]) + ItemText(counts[|counts| - 1]) + "."
  {
    if |counts| == 1 {
      assert counts[..0] == [];
    } else {
      RenderAsJoined(counts[1..]);
      assert counts[..|counts| - 1] == [counts[0]] + counts[1..][..|counts| - 2];
    }
  }

  /** The `forEachIndexed` loop that accumulates `speech`. */
  method RenderSpeech(objectCounts: seq<ObjectCount>) returns (speech: string)
    ensures speech == Render(objectCounts)
  {
    speech := "";
    var idx := 0;
    while idx < |objectCounts|
      invariant 0 <= idx <= |objectCounts|
      invariant idx < |objectCounts| ==> speech == Joined(objectCounts[..idx])
      invariant idx == |objectCounts| ==> speech == Render(objectCounts)
    {
      var it := objectCounts[idx];
      if idx == |objectCounts| - 1 {
        speech := speech + (NatToString(it.count) + " " + it.name + ".");
        RenderAsJoined(objectCounts);
      } else {
        speech := speech + (NatToString(it.count) + " " + it.name + ", ");
        JoinedSnoc(objectCounts[..idx], it);
        assert objectCounts[..idx + 1] == objectCounts[..idx] + [it];
      }
      idx := idx + 1;
    }
  }

  /** The text computed for a frame whose detections carry these first labels. */
  function SpeechOf(labels: seq<string>): string
  {
    if |FilterTargets(labels)| == 0 then NothingDetected else Render(ObjectCounts(labels))
  }

  // ---------------------------------------------------------------------------
  // Reading a speech back: the rendering loses nothing
  // ---------------------------------------------------------------------------

  predicate IsStop(ch: char)
  {
    ch == ',' || ch == '.'
  }

  /** A name that cannot be confused with the punctuation around it. */
  ghost predicate WellFormedName(name: string)
  {
    forall k :: 0 <= k < |name| ==> !IsStop(name[k])
  }

  /** The length of the longest prefix of digits. */
  function DigitSpan(s: string): (k: nat)
    ensures k <= |s|
    ensures forall i :: 0 <= i < k ==> IsDigit(s[i])
    ensures k < |s| ==> !IsDigit(s[k])
  {
    if s == [] || !IsDigit(s[0]) then 0 else 1 + DigitSpan(s[1..])
  }

  /** The length of the longest prefix without ',' or '.'. */
  function NameSpan(s: string): (k: nat)
    ensures k <= |s|
    ensures forall i :: 0 <= i < k ==> !IsStop(s[i])
    ensures k < |s| ==> IsStop(s[k])
  {
    if s == [] || IsStop(s[0]) then 0 else 1 + NameSpan(s[1..])
  }

  /** Reads one item "n name" off the front of `s`, with what follows it. */
  function ParseItem(s: string): (r: Option<(ObjectCount, string)>)
    ensures r.Some? ==> |r.value.1| < |s|
  {
    var d := DigitSpan(s);
    if d == 0 || d == |s| || s[d] != ' ' then None
    else
      var rest := s[d + 1..];
      var k := NameSpan(rest);
      if k == |rest| then None
      else Some((ObjectCount(rest[..k], ParseNat(s[..d])), rest[k..]))
  }

  /** Reads "n1 c1, n2 c2, ..., nk ck." back into its pairs. */
  function ParseItems(s: string): Option<seq<ObjectCount>>
    decreases |s|, 1
  {
    match ParseItem(s)
    case None => None
    case Some((item, tail)) => ParseAfterItem(item, tail)
  }

  /** What may follow an item: the final "." or ", " and further items. */
  function ParseAfterItem(item: ObjectCount, tail: string): Option<seq<ObjectCount>>
    decreases |tail|, 0
  {
    if tail == "." then Some([item])
    else if |tail| >= 2 && tail[..2] == ", " then
      match ParseItems(tail[2..])
      case Some(more) => Some([item] + more)
      case None => None
    else None
  }

  /** Reads a speech back: the fixed sentence for no detection, or the pairs. */
  function ParseSpeech(s: string): Option<seq<ObjectCount>>
  {
    if s == NothingDetected then Some([]) else ParseItems(s)
  }

  lemma DigitSpanOf(a: string, b: string)
    requires forall i :: 0 <= i < |a| ==> IsDigit(a[i])
    requires |b| > 0 && !IsDigit(b[0])
    ensures DigitSpan(a + b) == |a|
  {
    var d := DigitSpan(a + b);
    assert forall i :: 0 <= i < |a| ==> (a + b)[i] == a[i];
    assert (a + b)[|a|] == b[0];
  }

  lemma NameSpanOf(a: string, b: string)
    requires WellFormedName(a)
    requires |b| > 0 && IsStop(b[0])
    ensures NameSpan(a + b) == |a|
  {
    assert forall i :: 0 <= i < |a| ==> (a + b)[i] == a[i];
    assert (a + b)[|a|] == b[0];
  }

  /** One item: the digits, a space and a name, up to the next punctuation. */
  lemma ParseItemOf(digits: string, name: string, tail: string)
    requires |digits| > 0 && forall i :: 0 <= i < |digits| ==> IsDigit(digits[i])
    requires WellFormedName(name)
    requires |tail| > 0 && IsStop(tail[0])
    ensures ParseItem(digits + ([' '] + (name + tail))) == Some((ObjectCount(name, ParseNat(digits)), tail))
  {
    var rest := name + tail;
    var s := digits + ([' '] + rest);
    DigitSpanOf(digits, [' '] + rest);
    assert s[..|digits|] == digits && s[|digits|] == ' ';
    assert s[|digits| + 1..] == rest;
    NameSpanOf(name, tail);
    assert rest[..|name|] == name && rest[|name|..] == tail;
  }

  /** An item is read back as itself, whatever follows its punctuation. */
  lemma ParseItemText(c: ObjectCount, tail: string)
    requires WellFormedName(c.name)
    requires |tail| > 0 && IsStop(tail[0])
    ensures ParseItems(ItemText(c) + tail) == ParseAfterItem(c, tail)
  {
    var digits := NatToString(c.count);
    assert ItemText(c) + tail == digits + ([' '] + (c.name + tail));
    ParseItemOf(digits, c.name, tail);
    ParseNatToString(c.count);
  }

  /** After ", " the items that follow are read. */
  lemma AfterComma(item: ObjectCount, more: string)
    ensures ParseAfterItem(item, ", " + more)
         == match ParseItems(more) case Some(m) => Some([item] + m) case None => None
  {
    var tail := ", " + more;
    assert tail[..2] == ", " && tail[2..] == more;
  }

  lemma {:induction false} ParseRender(counts: seq<ObjectCount>)
    requires |counts| > 0
    requires forall i :: 0 <= i < |counts| ==> WellFormedName(counts[i].name)
    ensures ParseItems(Render(counts)) == Some(counts)
  {
    var c := counts[0];
    if |counts| == 1 {
      ParseItemText(c, ".");
      assert counts == [c];
    } else {
      var more := Render(counts[1..]);
      assert Render(counts) == ItemText(c) + (", " + more);
      ParseItemText(c, ", " + more);
      AfterComma(c, more);
      ParseRender(counts[1..]);
      assert counts == [c] + counts[1..];
    }
  }

  lemma CategoryNamesWellFormed(name: string)
    requires name in Categories
    ensures WellFormedName(name)
  {
    if name == "person" {
      assert forall k :: 0 <= k < 6 ==> "person"[k] in "person";
    }
  }

  /** The speech of every frame can be read back into exactly its pairs, so
      the spoken text names nothing but the categories and their counts. */
  lemma SpeechRoundTrip(labels: seq<string>)
    ensures ParseSpeech(SpeechOf(labels)) == Some(ObjectCounts(labels))
  {
    var counts := ObjectCounts(labels);
    ObjectCountsSpec(labels);
    if |FilterTargets(labels)| == 0 {
      assert MappedTargets(labels) == [];
    } else {
      assert counts != [];
      forall i | 0 <= i < |counts|
        ensures WellFormedName(counts[i].name)
      {
        CategoryNamesWellFormed(counts[i].name);
      }
      ParseRender(counts);
      var s := Render(counts);
      assert s[0] == NatToString(counts[0].count)[0];
      assert IsDigit(s[0]);
      assert s != NothingDetected by {
        assert !IsDigit(NothingDetected[0]);
      }
    }
  }

  /** With no allow-listed label the sentence is the fixed one; otherwise it
      is the rendering of the pairs, which ends in "." and never equals it. */
  lemma SpeechCases(labels: seq<string>)
    ensures |FilterTargets(labels)| == 0 <==> SpeechOf(labels) == NothingDetected
    ensures |FilterTargets(labels)| > 0 ==>
      SpeechOf(labels) == Render(ObjectCounts(labels)) && SpeechOf(labels)[|SpeechOf(labels)| - 1] == '.'
  {
    SpeechRoundTrip(labels);
    ObjectCountsSpec(labels);
    if |FilterTargets(labels)| > 0 {
      var counts := ObjectCounts(labels);
      assert counts != [];
      RenderAsJoined(counts);
    }
  }

  lemma {:induction false} FilterKeepsTargets(labels: seq<string>)
    requires forall i :: 0 <= i < |labels| ==> labels[i] in DetectObjectList
    ensures FilterTargets(labels) == labels
  {
    if labels != [] {
      FilterKeepsTargets(labels[1..]);
      assert labels == [labels[0]] + labels[1..];
    }
  }

  lemma {:induction false} FilterAppend(a: seq<string>, b: seq<string>)
    ensures FilterTargets(a + b) == FilterTargets(a) + FilterTargets(b)
  {
    if a == [] {
      assert a + b == b;
    } else {
      assert (a + b)[1..] == a[1..] + b;
      FilterAppend(a[1..], b);
    }
  }

  /** The summary depends on the allow-listed labels only. */
  lemma SpeechOfTargets(labels: seq<string>, others: seq<string>)
    requires FilterTargets(labels) == FilterTargets(others)
    ensures SpeechOf(labels) == SpeechOf(others)
  {
    assert MappedTargets(labels) == MappedTargets(others);
  }

  lemma FilterDropsUnlisted(before: seq<string>, x: string, after: seq<string>)
    requires x !in DetectObjectList
    ensures FilterTargets(before + [x] + after) == FilterTargets(before + after)
  {
    var t := FilterTargets(before);
    FilterAppend(before + [x], after);
    FilterAppend(before, [x]);
    FilterAppend(before, after);
    assert FilterTargets([x]) == [];
    assert FilterTargets(before + [x]) == t + [] == t;
  }

  /** A label off the allow-list, wherever it occurs, leaves the summary as it was. */
  lemma UnlistedLabelIgnored(before: seq<string>, x: string, after: seq<string>)
    requires x !in DetectObjectList
    ensures SpeechOf(before + [x] + after) == SpeechOf(before + after)
  {
    FilterDropsUnlisted(before, x, after);
    SpeechOfTargets(before + [x] + after, before + after);
  }

  /** Two persons and a chair give "2 person, 1 chair.". */
  lemma TwoPersonsOneChair()
    ensures SpeechOf(["person", "chair", "person"]) == "2 person, 1 chair."
  {
    var labels := ["person", "chair", "person"];
    ExampleCounts();
    assert |FilterTargets(labels)| == 3;
    ExampleRender();
  }

  lemma ExampleCounts()
    ensures FilterTargets(["person", "chair", "person"]) == ["person", "chair", "person"]
    ensures ObjectCounts(["person", "chair", "person"])
         == [ObjectCount("person", 2), ObjectCount("chair", 1)]
  {
    var labels := ["person", "chair", "person"];
    assert labels[0] in DetectObjectList && labels[1] in DetectObjectList;
    FilterKeepsTargets(labels);
    assert MapCategories(labels) == labels by {
      assert ToCategory("person") == "person" && ToCategory("chair") == "chair";
    }
    ExampleEachCount();
  }

  lemma ExampleEachCount()
    ensures EachCount(["person", "chair", "person"])
         == [ObjectCount("person", 2), ObjectCount("chair", 1)]
  {
    var m := ["person", "chair", "person"];
    assert m[..1][..0] == [];
    assert EachCount(m[..1]) == [ObjectCount("person", 1)];
    assert m[..2][..1] == m[..1] && m[..2][1] == "chair";
    assert "person" != "chair";
    var p1 := [ObjectCount("person", 1)];
    assert Bump(p1, "chair") == [p1[0]] + Bump(p1[1..], "chair");
    assert EachCount(m[..2]) == [ObjectCount("person", 1), ObjectCount("chair", 1)];
    assert m[..3][..2] == m[..2] && m[..3] == m;
  }

  lemma ExampleRender()
    ensures Render([ObjectCount("person", 2), ObjectCount("chair", 1)]) == "2 person, 1 chair."
  {
    assert NatToString(2) == "2" && NatToString(1) == "1";
  }
}
