/** Freezing nested values into an immutable canonical form and thawing them back. */
module FrozenValues {
  import opened Ordering

  /** Nested values with string keys; a mapping lists its entries in insertion order. */
  datatype Value =
    | Null
    | Flag(b: bool)
    | Whole(n: int)
    | Floating(x: real)
    | Str(s: string)
    | List(items: seq<Value>)
    | Tuple(items: seq<Value>)
    | Dict(entries: seq<Entry>)
    | FrozenDict(entries: seq<Entry>)

  datatype Entry = Entry(key: string, value: Value)

  predicate IsMapping(v: Value) { v.Dict? || v.FrozenDict? }
  predicate IsArray(v: Value) { v.List? || v.Tuple? }

  predicate KeyLess(a: Entry, b: Entry) { StrLt(a.key, b.key) }

  ghost predicate DistinctKeys(es: seq<Entry>) {
    DistinctBy(es, KeyOf)
  }

  function KeyOf(e: Entry): string { e.key }

  /** Keys ascend strictly. */
  ghost predicate Canonical(es: seq<Entry>) {
    Ascending(es, KeyLess)
  }

  // ---------- freeze and thaw ----------

  /** `_freeze_value` */
  function Freeze(v: Value): Value {
    match v
    case FrozenDict(_) => v
    case Dict(es) => FrozenDict(Sort(FreezeEntries(es), KeyLess))
    case Tuple(items) => Tuple(FreezeItems(items))
    case List(items) => Tuple(FreezeItems(items))
    case _ => v
  }

  function FreezeEntries(es: seq<Entry>): seq<Entry> {
    seq(|es|, i requires 0 <= i < |es| => Entry(es[i].key, Freeze(es[i].value)))
  }

  function FreezeItems(items: seq<Value>): seq<Value> {
    seq(|items|, i requires 0 <= i < |items| => Freeze(items[i]))
  }

  /** `_thaw_value`: plain lists and dictionaries are not entered. */
  function Thaw(v: Value): Value {
    match v
    case FrozenDict(es) => Dict(ThawEntries(es))
    case Tuple(items) => List(seq(|items|, i requires 0 <= i < |items| => Thaw(items[i])))
    case _ => v
  }

  function ThawEntries(es: seq<Entry>): seq<Entry> {
    seq(|es|, i requires 0 <= i < |es| => Entry(es[i].key, Thaw(es[i].value)))
  }

  // ---------- the two canonical shapes ----------

  /** What a runtime value satisfies: keys are distinct, and a frozen dictionary is frozen throughout. */
  ghost predicate WellFormed(v: Value) {
    match v
    case FrozenDict(_) => IsFrozen(v)
    case Dict(es) => DistinctKeys(es) && forall i :: 0 <= i < |es| ==> WellFormed(es[i].value)
    case Tuple(items) => forall i :: 0 <= i < |items| ==> WellFormed(items[i])
    case List(items) => forall i :: 0 <= i < |items| ==> WellFormed(items[i])
    case _ => true
  }

  /** Frozen at every depth: tuples and frozen dictionaries with ascending keys. */
  ghost predicate IsFrozen(v: Value) {
    match v
    case FrozenDict(es) => Canonical(es) && forall i :: 0 <= i < |es| ==> IsFrozen(es[i].value)
    case Tuple(items) => forall i :: 0 <= i < |items| ==> IsFrozen(items[i])
    case Dict(_) => false
    case List(_) => false
    case _ => true
  }

  /** Plain at every depth: lists and dictionaries whose keys were inserted in ascending order. */
  ghost predicate IsPlain(v: Value) {
    match v
    case Dict(es) => Canonical(es) && forall i :: 0 <= i < |es| ==> IsPlain(es[i].value)
    case List(items) => forall i :: 0 <= i < |items| ==> IsPlain(items[i])
    case FrozenDict(_) => false
    case Tuple(_) => false
    case _ => true
  }

  /** Equal up to the order of keys, lists against tuples and dictionaries against frozen ones, at every depth. */
  ghost predicate Same(v: Value, w: Value)
    decreases v, 0
  {
    if IsMapping(v) && IsMapping(w) then
      && (forall i :: 0 <= i < |v.entries| ==> HasPartner(v.entries[i], w.entries))
      && (forall j :: 0 <= j < |w.entries| ==> IsPartner(v.entries, w.entries[j]))
    else if IsArray(v) && IsArray(w) then
      |v.items| == |w.items| && forall i :: 0 <= i < |v.items| ==> Same(v.items[i], w.items[i])
    else v == w
  }

  ghost predicate SameEntry(a: Entry, b: Entry)
    decreases a, 0
  {
    a.key == b.key && Same(a.value, b.value)
  }

  ghost predicate HasPartner(e: Entry, fs: seq<Entry>)
    decreases e, 1
  {
    exists j :: 0 <= j < |fs| && SameEntry(e, fs[j])
  }

  ghost predicate IsPartner(es: seq<Entry>, f: Entry)
    decreases es, 0
  {
    exists i :: 0 <= i < |es| && SameEntry(es[i], f)
  }

  // ---------- sorting by key ----------

  lemma KeyLessIsWeak()
    ensures StrictWeak(KeyLess)
  {
    StrLtTotal();
    TotalIsWeak(StrLt);
    forall a, b | KeyLess(a, b) ensures !KeyLess(b, a) { StrLtAsymmetric(a.key, b.key); }
    forall a, b, c | KeyLess(a, c) ensures KeyLess(a, b) || KeyLess(b, c) {
      assert StrLt(a.key, c.key) ==> StrLt(a.key, b.key) || StrLt(b.key, c.key);
    }
  }

  lemma DistinctSeparated(es: seq<Entry>)
    requires DistinctKeys(es)
    ensures forall x, y :: x in es && y in es && x != y ==> KeyLess(x, y) || KeyLess(y, x)
  {
    forall x, y | x in es && y in es && x != y ensures KeyLess(x, y) || KeyLess(y, x) {
      if x.key != y.key { StrLtConnected(x.key, y.key); }
    }
  }

  /** Sorting entries with distinct keys gives strictly ascending keys. */
  lemma SortedCanonical(es: seq<Entry>)
    requires DistinctKeys(es)
    ensures Canonical(Sort(es, KeyLess))
  {
    var r := Sort(es, KeyLess);
    KeyLessIsWeak();
    SortSorts(es, KeyLess);
    SortMembers(es, KeyLess);
    PermutedDistinctBy(es, r, KeyOf);
    DistinctSeparated(es);
    forall i, j | 0 <= i < j < |r| ensures KeyLess(r[i], r[j]) {
      assert r[i] in es && r[j] in es && r[i].key != r[j].key;
    }
  }

  lemma CanonicalSorted(es: seq<Entry>)
    requires Canonical(es)
    ensures Sort(es, KeyLess) == es && DistinctKeys(es)
  {
    KeyLessIsWeak();
    SortFixesSorted(es, KeyLess);
    forall i, j | 0 <= i < j < |es| ensures es[i].key != es[j].key {
      assert KeyLess(es[i], es[j]);
      StrLtAsymmetric(es[i].key, es[j].key);
    }
  }

  // ---------- laws ----------

  /** Freezing any well-formed value reaches every depth. */
  lemma {:induction false} FreezeFreezes(v: Value)
    requires WellFormed(v)
    ensures IsFrozen(Freeze(v))
  {
    match v
    case Dict(es) =>
      var frozen := FreezeEntries(es);
      forall i | 0 <= i < |es| ensures IsFrozen(frozen[i].value) { FreezeFreezes(es[i].value); }
      SortedCanonical(frozen);
      SortMembers(frozen, KeyLess);
      var r := Sort(frozen, KeyLess);
      assert Freeze(v) == FrozenDict(r);
      forall i | 0 <= i < |r| ensures IsFrozen(r[i].value) { assert r[i] in frozen; }
    case Tuple(items) =>
      forall i | 0 <= i < |items| ensures IsFrozen(Freeze(items[i])) { FreezeFreezes(items[i]); }
    case List(items) =>
      forall i | 0 <= i < |items| ensures IsFrozen(Freeze(items[i])) { FreezeFreezes(items[i]); }
    case _ =>
  }

  /** Freezing what is frozen changes nothing, so freezing is idempotent. */
  lemma {:induction false} FreezeFixesFrozen(v: Value)
    requires IsFrozen(v)
    ensures Freeze(v) == v
  {
    if v.Tuple? {
      forall i | 0 <= i < |v.items| ensures Freeze(v.items[i]) == v.items[i] { FreezeFixesFrozen(v.items[i]); }
    }
  }

  /** Thawing a frozen value and freezing the result gives it back. */
  lemma {:induction false} FreezeAfterThaw(v: Value)
    requires IsFrozen(v)
    ensures IsPlain(Thaw(v)) && Freeze(Thaw(v)) == v
  {
    match v
    case FrozenDict(es) =>
      forall i | 0 <= i < |es| ensures IsPlain(Thaw(es[i].value)) && Freeze(Thaw(es[i].value)) == es[i].value {
        FreezeAfterThaw(es[i].value);
      }
      var thawed := ThawEntries(es);
      forall i, j | 0 <= i < j < |thawed| ensures KeyLess(thawed[i], thawed[j]) { assert KeyLess(es[i], es[j]); }
      assert FreezeEntries(thawed) == es;
      CanonicalSorted(es);
    case Tuple(items) =>
      forall i | 0 <= i < |items| ensures IsPlain(Thaw(items[i])) && Freeze(Thaw(items[i])) == items[i] {
        FreezeAfterThaw(items[i]);
      }
      var thawed := seq(|items|, i requires 0 <= i < |items| => Thaw(items[i]));
      assert Freeze(List(thawed)).items == items;
    case _ =>
  }

  /** Freezing a plain value and thawing the result gives it back. */
  lemma {:induction false} ThawAfterFreeze(v: Value)
    requires IsPlain(v)
    ensures Thaw(Freeze(v)) == v
  {
    match v
    case Dict(es) =>
      forall i | 0 <= i < |es| ensures Thaw(Freeze(es[i].value)) == es[i].value { ThawAfterFreeze(es[i].value); }
      var frozen := FreezeEntries(es);
      forall i, j | 0 <= i < j < |frozen| ensures KeyLess(frozen[i], frozen[j]) { assert KeyLess(es[i], es[j]); }
      CanonicalSorted(frozen);
      assert ThawEntries(frozen) == es;
    case List(items) =>
      forall i | 0 <= i < |items| ensures Thaw(Freeze(items[i])) == items[i] { ThawAfterFreeze(items[i]); }
      var frozen := FreezeItems(items);
      assert Thaw(Tuple(frozen)).items == items;
    case _ =>
  }

  /** Freezing decides equality: two values freeze to the same thing exactly when they differ in key order and kind only. */
  lemma {:induction false} FreezeDecidesSame(v: Value, w: Value)
    requires WellFormed(v) && WellFormed(w)
    ensures Freeze(v) == Freeze(w) <==> Same(v, w)
    decreases v
  {
    if IsMapping(v) && IsMapping(w) {
      forall i, j | 0 <= i < |v.entries| && 0 <= j < |w.entries|
        ensures SameEntry(v.entries[i], w.entries[j]) <==> FreezeEntries(v.entries)[i] == FreezeEntries(w.entries)[j]
      {
        EntryWellFormed(v, i);
        EntryWellFormed(w, j);
        FreezeDecidesSame(v.entries[i].value, w.entries[j].value);
      }
      FreezeMapping(v);
      FreezeMapping(w);
      SameEntries(v, w);
    } else if IsArray(v) && IsArray(w) && |v.items| == |w.items| {
      forall i | 0 <= i < |v.items| ensures Same(v.items[i], w.items[i]) <==> Freeze(v.items[i]) == Freeze(w.items[i]) {
        FreezeDecidesSame(v.items[i], w.items[i]);
      }
      SameItems(v, w);
    } else {
      DifferentShapes(v, w);
    }
  }

  lemma {:induction false} SameItems(v: Value, w: Value)
    requires IsArray(v) && IsArray(w) && |v.items| == |w.items|
    requires forall i :: 0 <= i < |v.items| ==> (Same(v.items[i], w.items[i]) <==> Freeze(v.items[i]) == Freeze(w.items[i]))
    ensures Freeze(v) == Freeze(w) <==> Same(v, w)
  {
    var a, b := FreezeItems(v.items), FreezeItems(w.items);
    assert Freeze(v) == Tuple(a) && Freeze(w) == Tuple(b);
    if Freeze(v) == Freeze(w) {
      forall i | 0 <= i < |v.items| ensures Same(v.items[i], w.items[i]) { assert a[i] == b[i]; }
    }
    if Same(v, w) {
      forall i | 0 <= i < |a| ensures a[i] == b[i] { assert Same(v.items[i], w.items[i]); }
    }
  }

  lemma DifferentShapes(v: Value, w: Value)
    requires !(IsMapping(v) && IsMapping(w)) && !(IsArray(v) && IsArray(w) && |v.items| == |w.items|)
    ensures Freeze(v) == Freeze(w) <==> Same(v, w)
  {
    assert IsArray(v) ==> Freeze(v).Tuple? && |Freeze(v).items| == |v.items|;
    assert IsArray(w) ==> Freeze(w).Tuple? && |Freeze(w).items| == |w.items|;
  }

  lemma EntryWellFormed(v: Value, i: nat)
    requires WellFormed(v) && IsMapping(v) && i < |v.entries|
    ensures WellFormed(v.entries[i].value)
  {
    if v.FrozenDict? { FrozenWellFormed(v.entries[i].value); }
  }

  lemma {:induction false} FrozenWellFormed(v: Value)
    requires IsFrozen(v)
    ensures WellFormed(v)
  {
    if v.Tuple? {
      forall i | 0 <= i < |v.items| ensures WellFormed(v.items[i]) { FrozenWellFormed(v.items[i]); }
    }
  }

  /** Freezing a mapping of either kind sorts its frozen entries. */
  lemma FreezeMapping(v: Value)
    requires WellFormed(v) && IsMapping(v)
    ensures DistinctKeys(FreezeEntries(v.entries))
    ensures Freeze(v) == FrozenDict(Sort(FreezeEntries(v.entries), KeyLess))
  {
    if v.FrozenDict? {
      forall i | 0 <= i < |v.entries| ensures Freeze(v.entries[i].value) == v.entries[i].value {
        FreezeFixesFrozen(v.entries[i].value);
      }
      assert FreezeEntries(v.entries) == v.entries;
      CanonicalSorted(v.entries);
    }
  }

  /** The frozen entries of `v` and `w` agree exactly where the entries are the same. */
  ghost predicate Agree(v: Value, w: Value)
    requires IsMapping(v) && IsMapping(w)
  {
    forall i, j :: 0 <= i < |v.entries| && 0 <= j < |w.entries| ==>
      (SameEntry(v.entries[i], w.entries[j]) <==> FreezeEntries(v.entries)[i] == FreezeEntries(w.entries)[j])
  }

  lemma SameEntries(v: Value, w: Value)
    requires IsMapping(v) && IsMapping(w) && Agree(v, w)
    requires DistinctKeys(FreezeEntries(v.entries)) && DistinctKeys(FreezeEntries(w.entries))
    ensures Same(v, w) <==> Sort(FreezeEntries(v.entries), KeyLess) == Sort(FreezeEntries(w.entries), KeyLess)
  {
    var a, b := FreezeEntries(v.entries), FreezeEntries(w.entries);
    if Same(v, w) {
      SameEntriesAgree(v, w);
      NoRepeatsMultiset(a, b);
      KeyLessIsWeak();
      DistinctSeparated(a);
      SortIgnoresOrder(a, b, KeyLess);
    }
    if Sort(a, KeyLess) == Sort(b, KeyLess) {
      SortMembers(a, KeyLess);
      SortMembers(b, KeyLess);
      ElementsSame(v, w);
    }
  }

  lemma SameEntriesAgree(v: Value, w: Value)
    requires IsMapping(v) && IsMapping(w) && Agree(v, w) && Same(v, w)
    ensures forall x :: x in FreezeEntries(v.entries) <==> x in FreezeEntries(w.entries)
  {
    var a, b := FreezeEntries(v.entries), FreezeEntries(w.entries);
    forall x | x in a ensures x in b {
      var i :| 0 <= i < |a| && a[i] == x;
      assert HasPartner(v.entries[i], w.entries);
      var j :| 0 <= j < |w.entries| && SameEntry(v.entries[i], w.entries[j]);
      assert b[j] == x;
    }
    forall x | x in b ensures x in a {
      var j :| 0 <= j < |b| && b[j] == x;
      assert IsPartner(v.entries, w.entries[j]);
      var i :| 0 <= i < |v.entries| && SameEntry(v.entries[i], w.entries[j]);
      assert a[i] == x;
    }
  }

  lemma ElementsSame(v: Value, w: Value)
    requires IsMapping(v) && IsMapping(w) && Agree(v, w)
    requires forall x :: x in FreezeEntries(v.entries) <==> x in FreezeEntries(w.entries)
    ensures Same(v, w)
  {
    var a, b := FreezeEntries(v.entries), FreezeEntries(w.entries);
    forall i | 0 <= i < |v.entries| ensures HasPartner(v.entries[i], w.entries) {
      assert a[i] in b;
      var j :| 0 <= j < |b| && b[j] == a[i];
      assert SameEntry(v.entries[i], w.entries[j]);
    }
    forall j | 0 <= j < |w.entries| ensures IsPartner(v.entries, w.entries[j]) {
      assert b[j] in a;
      var i :| 0 <= i < |a| && a[i] == b[j];
      assert SameEntry(v.entries[i], w.entries[j]);
    }
  }

  /** In a frozen dictionary keys ascend, and nothing in it is a plain list or dictionary. */
  lemma FrozenKeysAscend(es: seq<Entry>, i: nat, j: nat)
    requires IsFrozen(FrozenDict(es))
    ensures i < j < |es| ==> StrLt(es[i].key, es[j].key)
    ensures i < |es| ==> !es[i].value.Dict? && !es[i].value.List?
  {
    if i < j < |es| { assert KeyLess(es[i], es[j]); }
  }
}
