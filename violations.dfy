/**
 * The violation strip of one candidate (ProctoringViolations): the records are
 * grouped by violation type with a `reduce` whose accumulator is an object
 * keyed by type name. Each bucket adds up the counts, keeps the highest
 * severity and collects the non-empty detail strings; the buckets are then
 * rendered in the order their keys were first inserted.
 */
module Violations {

  datatype Option<T> = None | Some(value: T)

  datatype ViolationType = Window | Image | Time | Headphones | Cellphone | Other

  datatype Severity = Low | Medium | High

  /** The ranking table `{ low: 1, medium: 2, high: 3 }`. */
  function Rank(s: Severity): (r: int)
    ensures 1 <= r <= 3
  {
    match s
    case Low => 1
    case Medium => 2
    case High => 3
  }

  /** One proctoring incident; `details` is the optional free-text field. */
  datatype Violation = Violation(vtype: ViolationType, count: int, severity: Severity, details: Option<string>)

  /** JavaScript truthiness of `violation.details`: present and not empty. */
  predicate HasDetails(v: Violation)
  {
    v.details.Some? && v.details.value != ""
  }

  /** The per-type accumulator record. */
  datatype Bucket = Bucket(count: int, highestSeverity: Severity, details: seq<string>)

  /** The accumulator object: its buckets, and its keys in insertion order. */
  datatype Grouping = Grouping(buckets: map<ViolationType, Bucket>, order: seq<ViolationType>)

  /** One call of the reduce callback: create the bucket of `v`'s type if it is
      missing (appending its key), add the count, raise the severity on a
      strictly higher rank, and push truthy details. Only that one bucket
      changes. */
  function Absorb(acc: Grouping, v: Violation): (r: Grouping)
    ensures v.vtype in r.buckets
    ensures forall t :: t != v.vtype ==> (t in r.buckets <==> t in acc.buckets)
    ensures forall t :: t != v.vtype && t in acc.buckets ==> r.buckets[t] == acc.buckets[t]
    ensures r.order == if v.vtype in acc.buckets then acc.order else acc.order + [v.vtype]
  {
    var created := v.vtype !in acc.buckets;
    var b := if created then Bucket(0, Low, []) else acc.buckets[v.vtype];
    var counted := b.(count := b.count + v.count);
    var ranked :=
      if Rank(v.severity) > Rank(counted.highestSeverity) then counted.(highestSeverity := v.severity)
      else counted;
    var detailed := if HasDetails(v) then ranked.(details := ranked.details + [v.details.value]) else ranked;
    Grouping(acc.buckets[v.vtype := detailed], if created then acc.order + [v.vtype] else acc.order)
  }

  /** The whole `reduce`, starting from the empty object `{}`. */
  function Fold(vs: seq<Violation>): (r: Grouping)
  {
    if vs == [] then Grouping(map[], [])
    else Absorb(Fold(vs[..|vs| - 1]), vs[|vs| - 1])
  }

  // ---------------------------------------------------------------------
  // Reference definitions, one violation type at a time.

  /** The types present in `vs`. */
  function TypesOf(vs: seq<Violation>): (r: set<ViolationType>)
    ensures forall i :: 0 <= i < |vs| ==> vs[i].vtype in r
  {
    if vs == [] then {} else TypesOf(vs[..|vs| - 1]) + {vs[|vs| - 1].vtype}
  }

  /** A type is present exactly when some record has it. */
  lemma {:induction false} TypesOfIff(vs: seq<Violation>)
    ensures forall t :: t in TypesOf(vs) <==> exists i :: 0 <= i < |vs| && vs[i].vtype == t
  {
    if vs != [] {
      var init := vs[..|vs| - 1];
      TypesOfIff(init);
      forall t | t in TypesOf(vs)
        ensures exists i :: 0 <= i < |vs| && vs[i].vtype == t
      {
        if t in TypesOf(init) {
          var i :| 0 <= i < |init| && init[i].vtype == t;
          assert vs[i].vtype == t;
        } else {
          assert vs[|vs| - 1].vtype == t;
        }
      }
    }
  }

  /** Sum of `count` over the records of type `t`. */
  function TotalCount(vs: seq<Violation>, t: ViolationType): (r: int)
  {
    if vs == [] then 0
    else TotalCount(vs[..|vs| - 1], t) + (if vs[|vs| - 1].vtype == t then vs[|vs| - 1].count else 0)
  }

  /** The truthy details of the records of type `t`, in input order. */
  function DetailsOf(vs: seq<Violation>, t: ViolationType): (r: seq<string>)
  {
    if vs == [] then []
    else
      var last := vs[|vs| - 1];
      DetailsOf(vs[..|vs| - 1], t) + (if last.vtype == t && HasDetails(last) then [last.details.value] else [])
  }

  /** `s` is the severity of some record of type `t` and no record of type `t`
      ranks higher. */
  ghost predicate IsHighestOf(vs: seq<Violation>, t: ViolationType, s: Severity)
  {
    && (exists i :: 0 <= i < |vs| && vs[i].vtype == t && vs[i].severity == s)
    && (forall i :: 0 <= i < |vs| && vs[i].vtype == t ==> Rank(vs[i].severity) <= Rank(s))
  }

  /** Index of the first record of type `t`. */
  function FirstIndex(vs: seq<Violation>, t: ViolationType): (r: nat)
    requires t in TypesOf(vs)
    ensures r < |vs| && vs[r].vtype == t
    ensures forall q :: 0 <= q < r ==> vs[q].vtype != t
  {
    if t in TypesOf(vs[..|vs| - 1]) then FirstIndex(vs[..|vs| - 1], t) else |vs| - 1
  }

  predicate NoDuplicates<T(==)>(s: seq<T>)
  {
    forall i, j :: 0 <= i < j < |s| ==> s[i] != s[j]
  }

  // ---------------------------------------------------------------------
  // The fold against the reference definitions.

  /** There is exactly one bucket per type present in the input, and the key
      order lists exactly those types. */
  lemma {:induction false} FoldKeys(vs: seq<Violation>)
    ensures Fold(vs).buckets.Keys == TypesOf(vs)
    ensures forall t :: t in Fold(vs).order <==> t in TypesOf(vs)
  {
    if vs != [] {
      FoldKeys(vs[..|vs| - 1]);
    }
  }

  /** The key order lists no type twice. */
  lemma {:induction false} FoldOrderDistinct(vs: seq<Violation>)
    ensures NoDuplicates(Fold(vs).order)
  {
    if vs != [] {
      var init := vs[..|vs| - 1];
      FoldOrderDistinct(init);
      FoldKeys(init);
    }
  }

  /** The key order lists types by increasing position of first occurrence. */
  lemma {:induction false} FoldOrder(vs: seq<Violation>)
    ensures forall k :: 0 <= k < |Fold(vs).order| ==> Fold(vs).order[k] in TypesOf(vs)
    ensures forall i, j :: 0 <= i < j < |Fold(vs).order| ==>
              FirstIndex(vs, Fold(vs).order[i]) < FirstIndex(vs, Fold(vs).order[j])
  {
    FoldKeys(vs);
    if vs != [] {
      var init, last := vs[..|vs| - 1], vs[|vs| - 1];
      FoldOrder(init);
      FoldKeys(init);
      var order0, order := Fold(init).order, Fold(vs).order;
      assert Fold(vs) == Absorb(Fold(init), last);
      forall i | 0 <= i < |order0|
        ensures FirstIndex(vs, order0[i]) == FirstIndex(init, order0[i]) < |init|
      {
      }
      var isNew := last.vtype !in TypesOf(init);
      assert order == if isNew then order0 + [last.vtype] else order0;
      forall i, j | 0 <= i < j < |order|
        ensures FirstIndex(vs, order[i]) < FirstIndex(vs, order[j])
      {
        assert order[i] == order0[i];
        if j < |order0| {
          assert order[j] == order0[j];
        } else {
          assert order[j] == last.vtype;
        }
      }
    }
  }

  /** The bucket of `v`'s type after one reduce step, from the bucket it had
      before (a fresh one when the type was missing). */
  lemma AbsorbBucket(acc: Grouping, v: Violation)
    ensures var b0 := if v.vtype in acc.buckets then acc.buckets[v.vtype] else Bucket(0, Low, []);
            var b := Absorb(acc, v).buckets[v.vtype];
            && b.count == b0.count + v.count
            && b.details == b0.details + (if HasDetails(v) then [v.details.value] else [])
  {
  }

  /** A bucket's count is the sum of `count` over the records of its type. */
  lemma {:induction false} FoldCount(vs: seq<Violation>, t: ViolationType)
    requires t in Fold(vs).buckets
    ensures Fold(vs).buckets[t].count == TotalCount(vs, t)
  {
    var init, last := vs[..|vs| - 1], vs[|vs| - 1];
    assert Fold(vs) == Absorb(Fold(init), last);
    assert TotalCount(vs, t) == TotalCount(init, t) + (if last.vtype == t then last.count else 0);
    AbsorbBucket(Fold(init), last);
    if t in Fold(init).buckets {
      FoldCount(init, t);
    } else {
      FoldKeys(init);
      TotalCountAbsent(init, t);
    }
  }

  lemma {:induction false} TotalCountAbsent(vs: seq<Violation>, t: ViolationType)
    requires t !in TypesOf(vs)
    ensures TotalCount(vs, t) == 0 && DetailsOf(vs, t) == []
  {
    if vs != [] {
      TotalCountAbsent(vs[..|vs| - 1], t);
    }
  }

  /** A bucket's details are exactly the truthy details of its type's records,
      in input order. */
  lemma {:induction false} FoldDetails(vs: seq<Violation>, t: ViolationType)
    requires t in Fold(vs).buckets
    ensures Fold(vs).buckets[t].details == DetailsOf(vs, t)
  {
    var init, last := vs[..|vs| - 1], vs[|vs| - 1];
    assert Fold(vs) == Absorb(Fold(init), last);
    assert DetailsOf(vs, t) == DetailsOf(init, t) + (if last.vtype == t && HasDetails(last) then [last.details.value] else []);
    AbsorbBucket(Fold(init), last);
    if t in Fold(init).buckets {
      FoldDetails(init, t);
    } else {
      FoldKeys(init);
      TotalCountAbsent(init, t);
    }
  }

  /** Appending a record that is of another type, or ranks no higher, keeps
      the highest severity of type `t`. */
  lemma HighestKept(init: seq<Violation>, last: Violation, t: ViolationType, s: Severity)
    requires IsHighestOf(init, t, s)
    requires last.vtype != t || Rank(last.severity) <= Rank(s)
    ensures IsHighestOf(init + [last], t, s)
  {
    var i :| 0 <= i < |init| && init[i].vtype == t && init[i].severity == s;
    assert (init + [last])[i] == init[i];
  }

  /** Appending a record of type `t` that ranks at least as high as every
      earlier record of type `t` makes its severity the highest. */
  lemma HighestRaised(init: seq<Violation>, last: Violation, t: ViolationType)
    requires last.vtype == t
    requires forall i :: 0 <= i < |init| && init[i].vtype == t ==> Rank(init[i].severity) <= Rank(last.severity)
    ensures IsHighestOf(init + [last], t, last.severity)
  {
    assert (init + [last])[|init|] == last;
  }

  /** A bucket's highest severity is the maximum severity among its type's
      records under low < medium < high. */
  lemma {:induction false} FoldSeverity(vs: seq<Violation>, t: ViolationType)
    requires t in Fold(vs).buckets
    ensures IsHighestOf(vs, t, Fold(vs).buckets[t].highestSeverity)
  {
    var init, last := vs[..|vs| - 1], vs[|vs| - 1];
    assert vs == init + [last];
    var s := Fold(vs).buckets[t].highestSeverity;
    assert Fold(vs) == Absorb(Fold(init), last);
    if t in Fold(init).buckets {
      FoldSeverity(init, t);
      var s0 := Fold(init).buckets[t].highestSeverity;
      if last.vtype == t && Rank(last.severity) > Rank(s0) {
        assert s == last.severity;
        HighestRaised(init, last, t);
      } else {
        assert s == s0;
        HighestKept(init, last, t, s);
      }
    } else {
      FoldKeys(init);
      assert last.vtype == t && s == last.severity;
      HighestRaised(init, last, t);
    }
  }

  /** Every bucket of the fold summarises its type: total count, truthy
      details in order, and highest severity. */
  lemma FoldSummary(vs: seq<Violation>)
    ensures forall t :: t in Fold(vs).buckets ==> Fold(vs).buckets[t].count == TotalCount(vs, t)
    ensures forall t :: t in Fold(vs).buckets ==> Fold(vs).buckets[t].details == DetailsOf(vs, t)
    ensures forall t :: t in Fold(vs).buckets ==> IsHighestOf(vs, t, Fold(vs).buckets[t].highestSeverity)
  {
    forall t | t in Fold(vs).buckets
      ensures Fold(vs).buckets[t].count == TotalCount(vs, t)
      ensures Fold(vs).buckets[t].details == DetailsOf(vs, t)
      ensures IsHighestOf(vs, t, Fold(vs).buckets[t].highestSeverity)
    {
      FoldCount(vs, t);
      FoldDetails(vs, t);
      FoldSeverity(vs, t);
    }
  }

  /** The fold, taken apart into its bucket map and key order, meets every
      per-type reference definition. */
  lemma GroupingSummarises(vs: seq<Violation>, buckets: map<ViolationType, Bucket>, order: seq<ViolationType>)
    requires Grouping(buckets, order) == Fold(vs)
    ensures buckets.Keys == TypesOf(vs)
    ensures forall t :: t in order <==> t in TypesOf(vs)
    ensures NoDuplicates(order)
    ensures forall i, j :: 0 <= i < j < |order| ==> FirstIndex(vs, order[i]) < FirstIndex(vs, order[j])
    ensures forall t :: t in buckets ==> buckets[t].count == TotalCount(vs, t)
    ensures forall t :: t in buckets ==> buckets[t].details == DetailsOf(vs, t)
    ensures forall t :: t in buckets ==> IsHighestOf(vs, t, buckets[t].highestSeverity)
  {
    assert buckets == Fold(vs).buckets && order == Fold(vs).order;
    FoldKeys(vs);
    FoldOrderDistinct(vs);
    FoldOrder(vs);
    FoldSummary(vs);
  }

  /** One more record is one more reduce step. */
  lemma FoldStep(vs: seq<Violation>, i: nat)
    requires i < |vs|
    ensures Fold(vs[..i + 1]) == Absorb(Fold(vs[..i]), vs[i])
  {
    assert vs[..i + 1][..i] == vs[..i];
  }

  /** Two image records, medium then low, fold into a single image bucket
      with count 2 and severity medium. */
  lemma TwoImageRecordsExample()
    ensures Fold([Violation(Image, 1, Medium, None), Violation(Image, 1, Low, None)])
         == Grouping(map[Image := Bucket(2, Medium, [])], [Image])
  {
    var vs := [Violation(Image, 1, Medium, None), Violation(Image, 1, Low, None)];
    assert vs[..1] == [vs[0]];
    assert [vs[0]][..0] == [];
  }

  // ---------------------------------------------------------------------
  // The reduce as the component runs it.

  /** Groups `vs` by type, mutating a bucket map and its key order record by
      record. */
  method GroupViolations(vs: seq<Violation>) returns (buckets: map<ViolationType, Bucket>, order: seq<ViolationType>)
    ensures Grouping(buckets, order) == Fold(vs)
    ensures buckets.Keys == TypesOf(vs)
    ensures forall t :: t in order <==> t in TypesOf(vs)
    ensures NoDuplicates(order)
    ensures forall i, j :: 0 <= i < j < |order| ==> FirstIndex(vs, order[i]) < FirstIndex(vs, order[j])
    ensures forall t :: t in buckets ==> buckets[t].count == TotalCount(vs, t)
    ensures forall t :: t in buckets ==> buckets[t].details == DetailsOf(vs, t)
    ensures forall t :: t in buckets ==> IsHighestOf(vs, t, buckets[t].highestSeverity)
  {
    buckets, order := map[], [];
    for i := 0 to |vs|
      invariant Grouping(buckets, order) == Fold(vs[..i])
    {
      var v := vs[i];
      ghost var before := Grouping(buckets, order);
      var bucket;
      if v.vtype !in buckets {
        bucket := Bucket(0, Low, []);
        order := order + [v.vtype];
      } else {
        bucket := buckets[v.vtype];
      }
      bucket := bucket.(count := bucket.count + v.count);
      if Rank(v.severity) > Rank(bucket.highestSeverity) {
        bucket := bucket.(highestSeverity := v.severity);
      }
      if HasDetails(v) {
        bucket := bucket.(details := bucket.details + [v.details.value]);
      }
      buckets := buckets[v.vtype := bucket];
      assert Grouping(buckets, order) == Absorb(before, v);
      FoldStep(vs, i);
    }
    assert vs[..|vs|] == vs;
    GroupingSummarises(vs, buckets, order);
  }

  /** One rendered icon: `Object.entries` yields a type with its bucket. */
  datatype Entry = Entry(vtype: ViolationType, bucket: Bucket)

  datatype View = NoViolations | Icons(entries: seq<Entry>)

  /** The icons built from the fold's keys, in key order, summarise the
      records: no type twice, exactly the types present, first-seen order, and
      each type's count, details and highest severity. */
  lemma EntriesOfFold(vs: seq<Violation>, entries: seq<Entry>)
    requires |entries| == |Fold(vs).order|
    requires forall k :: 0 <= k < |entries| ==>
               && Fold(vs).order[k] in Fold(vs).buckets
               && entries[k] == Entry(Fold(vs).order[k], Fold(vs).buckets[Fold(vs).order[k]])
    ensures NoDuplicates(entries)
    ensures forall t :: t in TypesOf(vs) <==> exists k :: 0 <= k < |entries| && entries[k].vtype == t
    ensures forall i, j :: 0 <= i < j < |entries| ==> FirstIndex(vs, entries[i].vtype) < FirstIndex(vs, entries[j].vtype)
    ensures forall k :: 0 <= k < |entries| ==>
              var e := entries[k];
              && e.bucket.count == TotalCount(vs, e.vtype)
              && e.bucket.details == DetailsOf(vs, e.vtype)
              && IsHighestOf(vs, e.vtype, e.bucket.highestSeverity)
  {
    var order := Fold(vs).order;
    FoldKeys(vs);
    FoldOrderDistinct(vs);
    FoldOrder(vs);
    FoldSummary(vs);
    forall i, j | 0 <= i < j < |entries|
      ensures entries[i] != entries[j]
    {
      assert entries[i].vtype == order[i] && entries[j].vtype == order[j];
    }
    forall t | t in TypesOf(vs)
      ensures exists k :: 0 <= k < |entries| && entries[k].vtype == t
    {
      var k :| 0 <= k < |order| && order[k] == t;
      assert entries[k].vtype == t;
    }
  }

  /** The component: an empty list renders "No violations"; otherwise one icon
      per type present, in first-seen order, with that type's summary. */
  method Render(vs: seq<Violation>) returns (view: View)
    ensures view == NoViolations <==> vs == []
    ensures view.Icons? ==> NoDuplicates(view.entries)
    ensures view.Icons? ==> forall t :: t in TypesOf(vs) <==> exists k :: 0 <= k < |view.entries| && view.entries[k].vtype == t
    ensures view.Icons? ==> forall i, j :: 0 <= i < j < |view.entries| ==>
              FirstIndex(vs, view.entries[i].vtype) < FirstIndex(vs, view.entries[j].vtype)
    ensures view.Icons? ==> forall k :: 0 <= k < |view.entries| ==>
              var e := view.entries[k];
              && e.bucket.count == TotalCount(vs, e.vtype)
              && e.bucket.details == DetailsOf(vs, e.vtype)
              && IsHighestOf(vs, e.vtype, e.bucket.highestSeverity)
  {
    if |vs| == 0 {
      return NoViolations;
    }
    var buckets, order := GroupViolations(vs);
    var entries := seq(|order|, k requires 0 <= k < |order| => Entry(order[k], buckets[order[k]]));
    EntriesOfFold(vs, entries);
    view := Icons(entries);
  }
}
