/** Runs of the etcd store: exact effect of a write, commuting writes, and the directory
    tree kept closed under ancestors. */
module EtcdRuns {
  import opened Text
  import opened EtcdTree

  /** `Store` covers Put (`Plain`), PutTTL, PutYaml and the Lite forms: an entry may hang on a
      lease, and `build` says whether directories follow. */
  datatype Op =
    | Store(key: string, e: Entry, build: bool)
    | Get(key: string)
    | Delete(key: string)
    | DeletePrefix(prefix: string)

  function Plain(key: string, value: string): Op { Store(key, Entry(value, 0), !IsTag(value)) }

  function Apply(kv: Kv, root: string, op: Op): Kv {
    match op
    case Store(key, e, build) => AfterPut(kv, root, key, e, build)
    case Get(_) => kv
    case Delete(key) => kv - {Full(root, key)}
    case DeletePrefix(prefix) => WithoutPrefix(kv, DeletedPrefix(root, prefix))
  }

  /** A run, newest operation last. */
  function Run(kv: Kv, root: string, ops: seq<Op>): Kv {
    if ops == [] then kv else Apply(Run(kv, root, ops[..|ops| - 1]), root, ops[|ops| - 1])
  }

  // ---------- exact effect of one write ----------

  datatype Slot = Absent | Present(e: Entry)

  function At(kv: Kv, f: string): Slot {
    if f in kv then Present(kv[f]) else Absent
  }

  lemma SameSlots(a: Kv, b: Kv)
    requires forall f :: At(a, f) == At(b, f)
    ensures a == b
  {
    forall f ensures f in a <==> f in b { assert At(a, f) == At(b, f); }
    forall f | f in a ensures a[f] == b[f] { assert At(a, f) == At(b, f); }
  }

  /** Every key of the store after a write, in terms of the store before it. */
  lemma PutEffect(kv: Kv, root: string, key: string, e: Entry, build: bool, b: string)
    ensures At(AfterPut(kv, root, key, e, build), Full(root, b)) ==
            if Full(root, key) == "" then At(kv, Full(root, b))
            else if b == key then Present(e)
            else if build && IsAncestor(b, key) && Full(root, b) != "" && !IsTag(Lookup(kv, Full(root, b)))
            then Present(TAG)
            else At(kv, Full(root, b))
  {
    FullInjective(root, b, key);
    AncestorsAre(key, b);
    TagKeysAre(Write(kv, Full(root, key), e), root, Ancestors(key), b);
  }

  /** No write leaves the root. */
  lemma PutStaysInside(kv: Kv, root: string, key: string, e: Entry, build: bool, f: string)
    requires |root| > 0 && !(root + "/" <= f)
    ensures At(AfterPut(kv, root, key, e, build), f) == At(kv, f)
  {
  }

  lemma Inside(root: string, f: string)
    ensures |root| == 0 ==> f == Full(root, f)
    ensures |root| > 0 && root + "/" <= f ==> f == Full(root, f[|root| + 1..])
  {
  }

  /** Repeating a write with directories changes nothing. */
  lemma PutIdempotent(kv: Kv, root: string, key: string, e: Entry, build: bool)
    ensures var once := AfterPut(kv, root, key, e, build);
            AfterPut(once, root, key, e, build) == once
  {
    var once := AfterPut(kv, root, key, e, build);
    var twice := AfterPut(once, root, key, e, build);
    forall f ensures At(twice, f) == At(once, f) {
      if |root| > 0 && !(root + "/" <= f) {
        PutStaysInside(once, root, key, e, build, f);
      } else {
        var b := if |root| > 0 then f[|root| + 1..] else f;
        Inside(root, f);
        PutEffect(kv, root, key, e, build, b);
        PutEffect(once, root, key, e, build, b);
      }
    }
    SameSlots(twice, once);
  }

  /** The first write of a path sends at most one request per part; the repeated one sends a
      single request, except that a path with an empty first part below no root asks for the
      refused tag on "" again each time. */
  lemma PutRequestCount(kv: Kv, root: string, key: string, e: Entry)
    requires "" !in kv
    ensures PutRequests(kv, root, key, e, true) <= 1 + CountSlashes(key)
    ensures Full(root, key) != "" ==>
              (PutRequests(AfterPut(kv, root, key, e, true), root, key, e, true) == 1
               <==> !(root == "" && "/" <= key))
  {
    AncestorCount(key);
    var kv1 := Write(kv, Full(root, key), e);
    SubsetCount(Untagged(kv1, root, Ancestors(key)), Ancestors(key));
    if Full(root, key) != "" {
      var once := AfterPut(kv, root, key, e, true);
      var left := Untagged(Write(once, Full(root, key), e), root, Ancestors(key));
      forall a ensures a in left <==> a in Ancestors(key) && Full(root, a) == "" {
        AncestorsAre(key, a);
        FullInjective(root, a, key);
        PutEffect(kv, root, key, e, true, a);
        assert At(Write(once, Full(root, key), e), Full(root, key)) == Present(e);
        if a in Ancestors(key) {
          assert At(Write(once, Full(root, key), e), Full(root, a)) == At(once, Full(root, a));
        }
      }
      AncestorsAre(key, "");
      assert "" + "/" == "/";
      if left == {} {
        assert !("" in Ancestors(key) && root == "");
      } else {
        var a :| a in left;
        assert a == "" && root == "";
      }
    }
  }

  lemma SubsetCount<T>(a: set<T>, b: set<T>)
    requires a <= b
    ensures |a| <= |b|
  {
    assert b == a + (b - a);
  }

  // ---------- writes that commute ----------

  /** Two plain writes reach the same store in both orders exactly when they are the same
      write or go to distinct keys of which neither is a directory of the other. */
  lemma PutsCommute(kv: Kv, root: string, k1: string, v1: string, k2: string, v2: string)
    requires !IsTag(v1) && !IsTag(v2) && Full(root, k1) != "" && Full(root, k2) != ""
    ensures Apply(Apply(kv, root, Plain(k1, v1)), root, Plain(k2, v2)) ==
            Apply(Apply(kv, root, Plain(k2, v2)), root, Plain(k1, v1))
            <==> if k1 == k2 then v1 == v2 else !IsAncestor(k1, k2) && !IsAncestor(k2, k1)
  {
    if k1 == k2 {
      PutEffect(Apply(kv, root, Plain(k1, v1)), root, k2, Entry(v2, 0), true, k1);
      PutEffect(Apply(kv, root, Plain(k2, v2)), root, k1, Entry(v1, 0), true, k1);
    } else {
      DistinctPutsCommute(kv, root, k1, v1, k2, v2);
    }
  }

  lemma DistinctPutsCommute(kv: Kv, root: string, k1: string, v1: string, k2: string, v2: string)
    requires !IsTag(v1) && !IsTag(v2) && Full(root, k1) != "" && Full(root, k2) != "" && k1 != k2
    ensures Apply(Apply(kv, root, Plain(k1, v1)), root, Plain(k2, v2)) ==
            Apply(Apply(kv, root, Plain(k2, v2)), root, Plain(k1, v1))
            <==> !IsAncestor(k1, k2) && !IsAncestor(k2, k1)
  {
    var a1, a2 := Apply(kv, root, Plain(k1, v1)), Apply(kv, root, Plain(k2, v2));
    var a12, a21 := Apply(a1, root, Plain(k2, v2)), Apply(a2, root, Plain(k1, v1));
    if IsAncestor(k1, k2) || IsAncestor(k2, k1) {
      CommuteAt(kv, root, k1, v1, k2, v2, k1);
      CommuteAt(kv, root, k1, v1, k2, v2, k2);
    } else {
      forall f ensures At(a12, f) == At(a21, f) {
        if |root| > 0 && !(root + "/" <= f) {
          PutStaysInside(kv, root, k1, Entry(v1, 0), true, f);
          PutStaysInside(kv, root, k2, Entry(v2, 0), true, f);
          PutStaysInside(a1, root, k2, Entry(v2, 0), true, f);
          PutStaysInside(a2, root, k1, Entry(v1, 0), true, f);
        } else {
          var b := if |root| > 0 then f[|root| + 1..] else f;
          Inside(root, f);
          CommuteAt(kv, root, k1, v1, k2, v2, b);
        }
      }
      SameSlots(a12, a21);
    }
  }

  lemma CommuteAt(kv: Kv, root: string, k1: string, v1: string, k2: string, v2: string, b: string)
    requires !IsTag(v1) && !IsTag(v2) && Full(root, k1) != "" && Full(root, k2) != "" && k1 != k2
    ensures var a12 := Apply(Apply(kv, root, Plain(k1, v1)), root, Plain(k2, v2));
            var a21 := Apply(Apply(kv, root, Plain(k2, v2)), root, Plain(k1, v1));
            && (IsAncestor(k1, k2) && b == k1 ==> At(a12, Full(root, b)) != At(a21, Full(root, b)))
            && (IsAncestor(k2, k1) && b == k2 ==> At(a12, Full(root, b)) != At(a21, Full(root, b)))
            && (!IsAncestor(k1, k2) && !IsAncestor(k2, k1) ==> At(a12, Full(root, b)) == At(a21, Full(root, b)))
  {
    var a1, a2 := Apply(kv, root, Plain(k1, v1)), Apply(kv, root, Plain(k2, v2));
    PutEffect(kv, root, k1, Entry(v1, 0), true, b);
    PutEffect(kv, root, k2, Entry(v2, 0), true, b);
    PutEffect(a1, root, k2, Entry(v2, 0), true, b);
    PutEffect(a2, root, k1, Entry(v1, 0), true, b);
    assert IsTag(DIR_TAG) && Full(root, b) == "" ==> At(kv, Full(root, b)) == At(a1, Full(root, b));
  }

  /** A batch of plain writes: non-tag values, one value for each key, no key a directory of
      another. */
  ghost predicate Batch(root: string, writes: set<(string, string)>) {
    && (forall w | w in writes :: !IsTag(w.1) && Full(root, w.0) != "")
    && (forall w, w' | w in writes && w' in writes :: !IsAncestor(w.0, w'.0) && (w.0 == w'.0 ==> w == w'))
  }

  function PutAll(kv: Kv, root: string, writes: seq<(string, string)>): Kv {
    if writes == [] then kv
    else
      var last := writes[|writes| - 1];
      Apply(PutAll(kv, root, writes[..|writes| - 1]), root, Plain(last.0, last.1))
  }

  /** What a batch leaves at a key, whatever its order: the set of writes decides. */
  ghost function BatchSlot(kv: Kv, root: string, writes: set<(string, string)>, b: string): Slot {
    if exists w :: w in writes && w.0 == b then
      var w :| w in writes && w.0 == b; Present(Entry(w.1, 0))
    else if (exists w :: w in writes && IsAncestor(b, w.0)) && Full(root, b) != "" && !IsTag(Lookup(kv, Full(root, b)))
    then Present(TAG)
    else At(kv, Full(root, b))
  }

  function Items(writes: seq<(string, string)>): set<(string, string)> {
    set w | w in writes
  }

  /** The closed form of a batch. */
  lemma {:induction false} BatchClosedForm(kv: Kv, root: string, writes: seq<(string, string)>, b: string)
    requires Batch(root, Items(writes))
    ensures At(PutAll(kv, root, writes), Full(root, b)) == BatchSlot(kv, root, Items(writes), b)
    decreases |writes|
  {
    if writes != [] {
      var rest, last := writes[..|writes| - 1], writes[|writes| - 1];
      assert writes == rest + [last];
      ItemsOfMore(rest, last);
      BatchClosedForm(kv, root, rest, b);
      assert last in Items(rest) + {last};
      PlainSlot(PutAll(kv, root, rest), root, last, b);
      BatchSlotGrows(kv, root, Items(rest), last, b);
    }
  }

  lemma ItemsOfMore(rest: seq<(string, string)>, last: (string, string))
    ensures Items(rest + [last]) == Items(rest) + {last}
  {
  }

  /** A key's slot after one more write of a batch. */
  function SlotAfter(before: Slot, root: string, w: (string, string), b: string): Slot {
    if b == w.0 then Present(Entry(w.1, 0))
    else if IsAncestor(b, w.0) && Full(root, b) != "" && !(before.Present? && IsTag(before.e.value)) then Present(TAG)
    else before
  }

  lemma PlainSlot(kv: Kv, root: string, w: (string, string), b: string)
    requires !IsTag(w.1) && Full(root, w.0) != ""
    ensures At(Apply(kv, root, Plain(w.0, w.1)), Full(root, b)) == SlotAfter(At(kv, Full(root, b)), root, w, b)
  {
    PutEffect(kv, root, w.0, Entry(w.1, 0), true, b);
    assert !IsTag("");
  }

  /** One more write of a batch: the slot of every key, from the slot before. */
  lemma BatchSlotGrows(kv: Kv, root: string, rest: set<(string, string)>, last: (string, string), b: string)
    requires Batch(root, rest + {last})
    ensures BatchSlot(kv, root, rest + {last}, b) == SlotAfter(BatchSlot(kv, root, rest, b), root, last, b)
  {
  }

  lemma {:induction false} BatchStaysInside(kv: Kv, root: string, writes: seq<(string, string)>, f: string)
    requires |root| > 0 && !(root + "/" <= f)
    ensures At(PutAll(kv, root, writes), f) == At(kv, f)
    decreases |writes|
  {
    if writes != [] {
      var rest, last := writes[..|writes| - 1], writes[|writes| - 1];
      BatchStaysInside(kv, root, rest, f);
      PutStaysInside(PutAll(kv, root, rest), root, last.0, Entry(last.1, 0), !IsTag(last.1), f);
    }
  }

  /** Any two orders of a batch, with any repetitions, leave the same store. */
  lemma BatchOrderIrrelevant(kv: Kv, root: string, writes: seq<(string, string)>, other: seq<(string, string)>)
    requires Batch(root, Items(writes)) && Items(writes) == Items(other)
    ensures PutAll(kv, root, writes) == PutAll(kv, root, other)
  {
    forall f ensures At(PutAll(kv, root, writes), f) == At(PutAll(kv, root, other), f) {
      if |root| > 0 && !(root + "/" <= f) {
        BatchStaysInside(kv, root, writes, f);
        BatchStaysInside(kv, root, other, f);
      } else {
        var b := if |root| > 0 then f[|root| + 1..] else f;
        Inside(root, f);
        BatchClosedForm(kv, root, writes, b);
        BatchClosedForm(kv, root, other, b);
      }
    }
    SameSlots(PutAll(kv, root, writes), PutAll(kv, root, other));
  }

  // ---------- the directory tree stays closed ----------

  /** Every proper ancestor of a stored key is stored. */
  ghost predicate Closed(kv: Kv, root: string) {
    forall a, b :: IsAncestor(a, b) && Full(root, b) in kv ==> Full(root, a) in kv
  }

  /** What a caller can check before an operation. */
  ghost predicate Safe(kv: Kv, root: string, op: Op) {
    match op
    case Store(key, _, build) =>
      || Full(root, key) == ""
      || if build then !(root == "" && "/" <= key)
         else forall a | IsAncestor(a, key) :: Full(root, a) in kv
    case Delete(key) =>
      || Full(root, key) !in kv
      || !exists b :: IsAncestor(key, b) && Full(root, b) in kv
    case Get(_) => true
    case DeletePrefix(_) => true
  }

  /** A step keeps the tree closed exactly when it is safe. */
  lemma StepClosed(kv: Kv, root: string, op: Op)
    requires "" !in kv && Closed(kv, root)
    ensures "" !in Apply(kv, root, op)
    ensures Closed(Apply(kv, root, op), root) <==> Safe(kv, root, op)
  {
    match op
    case Get(_) =>
    case Store(key, e, build) => StoreClosed(kv, root, key, e, build);
    case Delete(key) => DeleteClosed(kv, root, key);
    case DeletePrefix(prefix) => DeletePrefixClosed(kv, root, prefix);
  }

  lemma EmptyAncestor(k: string)
    ensures IsAncestor("", k) <==> "/" <= k
  {
  }

  lemma StoreClosed(kv: Kv, root: string, key: string, e: Entry, build: bool)
    requires "" !in kv && Closed(kv, root)
    ensures "" !in AfterPut(kv, root, key, e, build)
    ensures Closed(AfterPut(kv, root, key, e, build), root) <==> Safe(kv, root, Store(key, e, build))
  {
    var after := AfterPut(kv, root, key, e, build);
    forall b { PutEffect(kv, root, key, e, build, b); }
    if root == "" { PutEffect(kv, root, key, e, build, ""); }
    if Safe(kv, root, Store(key, e, build)) {
      forall a, b | IsAncestor(a, b) && Full(root, b) in after ensures Full(root, a) in after {
        PutEffect(kv, root, key, e, build, a);
        PutEffect(kv, root, key, e, build, b);
        if Full(root, key) != "" && Full(root, b) !in kv {
          if b != key { AncestorOfAncestor(a, b, key); }
          assert IsAncestor(a, key);
          EmptyAncestor(key);
        }
      }
    } else if build {
      EmptyAncestor(key);
      assert Full(root, key) in after && Full(root, "") !in after;
    } else {
      var a :| IsAncestor(a, key) && Full(root, a) !in kv;
      PutEffect(kv, root, key, e, build, a);
      assert Full(root, key) in after by { PutEffect(kv, root, key, e, build, key); }
    }
  }

  lemma DeleteClosed(kv: Kv, root: string, key: string)
    requires Closed(kv, root)
    ensures Closed(kv - {Full(root, key)}, root) <==> Safe(kv, root, Delete(key))
  {
    var after := kv - {Full(root, key)};
    if Safe(kv, root, Delete(key)) {
      forall a, b | IsAncestor(a, b) && Full(root, b) in after ensures Full(root, a) in after {
        FullInjective(root, a, key);
      }
    } else {
      var b :| IsAncestor(key, b) && Full(root, b) in kv;
      FullInjective(root, b, key);
      assert Full(root, b) in after && Full(root, key) !in after;
    }
  }

  lemma DeletePrefixClosed(kv: Kv, root: string, prefix: string)
    requires Closed(kv, root)
    ensures Closed(WithoutPrefix(kv, DeletedPrefix(root, prefix)), root)
  {
  }

  // ---------- the tree while a path is being tagged ----------

  /** A write on its way: the value is there, and of the directories of `key`, which are
      tagged deepest first, those of `at` are still to come. */
  function Midway(kv: Kv, root: string, key: string, e: Entry, at: string): Kv {
    Tagged(Write(kv, Full(root, key), e), root, Ancestors(key) - Ancestors(at))
  }

  lemma MidwayHolds(kv: Kv, root: string, key: string, e: Entry, at: string, b: string)
    requires "" !in kv && Full(root, key) != "" && !(root == "" && "/" <= key)
    ensures Full(root, b) in Midway(kv, root, key, e, at)
            <==> Full(root, b) in kv || b == key || (IsAncestor(b, key) && !IsAncestor(b, at))
  {
    var kv1 := Write(kv, Full(root, key), e);
    TagKeysAre(kv1, root, Ancestors(key) - Ancestors(at), b);
    AncestorsAre(key, b);
    AncestorsAre(at, b);
    FullInjective(root, b, key);
    assert !IsTag("");
    EmptyAncestor(key);
  }

  /** Between two tags the tree is closed exactly when the directories still to come were
      there already; so it is closed when the last tag is set, and a path with a new directory
      at the top leaves it open until then. */
  lemma MidwayClosed(kv: Kv, root: string, key: string, e: Entry, at: string)
    requires "" !in kv && Closed(kv, root)
    requires Full(root, key) != "" && !(root == "" && "/" <= key)
    requires at == key || IsAncestor(at, key)
    ensures Closed(Midway(kv, root, key, e, at), root) <==> forall a | IsAncestor(a, at) :: Full(root, a) in kv
    ensures Ancestors(at) == {} ==> Midway(kv, root, key, e, at) == AfterPut(kv, root, key, e, true)
  {
    forall b { MidwayHolds(kv, root, key, e, at, b); }
    var now := Midway(kv, root, key, e, at);
    if Closed(now, root) {
      forall a | IsAncestor(a, at) ensures Full(root, a) in kv {
        assert Full(root, at) in now;
      }
    }
    if forall a | IsAncestor(a, at) :: Full(root, a) in kv {
      forall a, b | IsAncestor(a, b) && Full(root, b) in now ensures Full(root, a) in now {
        if Full(root, b) !in kv && b != key { AncestorOfAncestor(a, b, key); }
      }
    }
    if Ancestors(at) == {} { assert Ancestors(key) - Ancestors(at) == Ancestors(key); }
  }

  // ---------- whole runs ----------

  /** The tree was closed at every point of the run. */
  ghost predicate AlwaysClosed(kv: Kv, root: string, ops: seq<Op>) {
    && Closed(Run(kv, root, ops), root)
    && (ops != [] ==> AlwaysClosed(kv, root, ops[..|ops| - 1]))
  }

  /** Every operation of the run was safe when it was made. */
  ghost predicate AlwaysSafe(kv: Kv, root: string, ops: seq<Op>) {
    ops != [] ==>
      && AlwaysSafe(kv, root, ops[..|ops| - 1])
      && Safe(Run(kv, root, ops[..|ops| - 1]), root, ops[|ops| - 1])
  }

  /** Over a whole run from a closed store: the tree is closed at every point exactly when
      every step was safe when taken. */
  lemma {:induction false} RunClosed(kv: Kv, root: string, ops: seq<Op>)
    requires "" !in kv && Closed(kv, root)
    ensures AlwaysClosed(kv, root, ops) <==> AlwaysSafe(kv, root, ops)
    ensures "" !in Run(kv, root, ops)
    decreases |ops|
  {
    if ops != [] {
      var rest, before := ops[..|ops| - 1], Run(kv, root, ops[..|ops| - 1]);
      RunClosed(kv, root, rest);
      EmptyKeyStaysOut(before, root, ops[|ops| - 1]);
      if Closed(before, root) {
        StepClosed(before, root, ops[|ops| - 1]);
      } else {
        assert !AlwaysClosed(kv, root, rest);
      }
    }
  }

  lemma EmptyKeyStaysOut(kv: Kv, root: string, op: Op)
    requires "" !in kv
    ensures "" !in Apply(kv, root, op)
  {
  }
}
