/** Stores sharing one etcd server under different roots. */
module Isolation {
  import opened Text
  import opened EtcdTree
  import opened EtcdRuns

  /** What a store of root `root` sees: its keys without the root. */
  function View(kv: Kv, root: string): Kv {
    map b | b in (set f | f in kv && root + "/" <= f :: f[|root| + 1..]) && root + "/" + b in kv :: kv[root + "/" + b]
  }

  /** A directory store of its own, with no root and no server to refuse a key. */
  function TreeApply(m: Kv, op: Op): Kv {
    match op
    case Store(key, e, build) =>
      var tags := map a | a in Ancestors(key) && build && !(a in m && IsTag(m[a].value)) :: TAG;
      m[key := e] + tags
    case Get(_) => m
    case Delete(key) => m - {key}
    case DeletePrefix(prefix) => map k | k in m && !(prefix <= k) :: m[k]
  }

  function TreeAnswer(m: Kv, op: Op): seq<string> {
    if !op.Get? then [] else if op.key in m then [m[op.key].value] else [""]
  }

  /** The run of a lone directory store, and what its Gets answer. */
  function TreeRun(m: Kv, ops: seq<Op>): (Kv, seq<string>) {
    if ops == [] then (m, [])
    else
      var (m', answers) := TreeRun(m, ops[..|ops| - 1]);
      (TreeApply(m', ops[|ops| - 1]), answers + TreeAnswer(m', ops[|ops| - 1]))
  }

  /** An interleaved run of several stores on one server; the answers given to `root`. */
  type Script = seq<(string, Op)>

  function SharedRun(kv: Kv, script: Script, root: string): (Kv, seq<string>) {
    if script == [] then (kv, [])
    else
      var (kv', answers) := SharedRun(kv, script[..|script| - 1], root);
      var (r, op) := script[|script| - 1];
      (Apply(kv', r, op),
       answers + if r == root && op.Get? then [Lookup(kv', Full(r, op.key))] else [])
  }

  function Only(script: Script, root: string): seq<Op> {
    if script == [] then []
    else
      Only(script[..|script| - 1], root) +
      if script[|script| - 1].0 == root then [script[|script| - 1].1] else []
  }

  /** The prefix that all keys an operation may change have in common. */
  function Reach(root: string, op: Op): string {
    if op.DeletePrefix? && op.prefix == "" then root else root + "/"
  }

  predicate Separate(p: string, q: string) {
    !(p <= q) && !(q <= p)
  }

  // ---------- lemmas ----------

  lemma ViewSlot(kv: Kv, root: string, b: string)
    ensures At(View(kv, root), b) == At(kv, root + "/" + b)
  {
  }

  /** An operation changes no key outside its reach. */
  lemma Untouched(kv: Kv, root: string, op: Op, f: string)
    requires root != "" && !(Reach(root, op) <= f)
    ensures At(Apply(kv, root, op), f) == At(kv, f)
  {
  }

  /** Through its root, the store is a directory store of its own. */
  lemma ViewRefines(kv: Kv, root: string, op: Op)
    requires root != ""
    ensures View(Apply(kv, root, op), root) == TreeApply(View(kv, root), op)
  {
    forall b ensures At(View(Apply(kv, root, op), root), b) == At(TreeApply(View(kv, root), op), b) {
      ViewSlot(kv, root, b);
      ViewSlot(Apply(kv, root, op), root, b);
      assert Full(root, b) == root + "/" + b;
      match op
      case Store(key, e, build) =>
        PutEffect(kv, root, key, e, build, b);
        AncestorsAre(key, b);
        assert b == key ==> !IsAncestor(b, key);
      case Get(_) =>
      case Delete(key) => FullInjective(root, b, key);
      case DeletePrefix(prefix) =>
        FullPrefix(root, prefix, b);
        assert prefix == "" ==> root <= Full(root, b);
    }
    SameSlots(View(Apply(kv, root, op), root), TreeApply(View(kv, root), op));
  }

  /** A store whose reach is separate from another's root leaves the other's view alone. */
  lemma NoInterference(kv: Kv, root: string, op: Op, other: string)
    requires root != "" && Separate(Reach(root, op), other + "/")
    ensures View(Apply(kv, root, op), other) == View(kv, other)
  {
    forall b ensures At(View(Apply(kv, root, op), other), b) == At(View(kv, other), b) {
      ViewSlot(kv, other, b);
      ViewSlot(Apply(kv, root, op), other, b);
      var f := other + "/" + b;
      assert other + "/" <= f;
      if Reach(root, op) <= f {
        PrefixesNest(Reach(root, op), other + "/", f);
        assert false;
      }
      Untouched(kv, root, op, f);
    }
    SameSlots(View(Apply(kv, root, op), other), View(kv, other));
  }

  /** In any interleaved run, a store whose root stays apart from what the others reach
      behaves, in its view and in every answer, as if it were alone. */
  lemma {:induction false} IsolatedRun(kv: Kv, script: Script, root: string)
    requires root != ""
    requires forall i | 0 <= i < |script| ::
               script[i].0 == root || (script[i].0 != "" && Separate(Reach(script[i].0, script[i].1), root + "/"))
    ensures var (shared, answers) := SharedRun(kv, script, root);
            (View(shared, root), answers) == TreeRun(View(kv, root), Only(script, root))
    decreases |script|
  {
    if script != [] {
      var rest := script[..|script| - 1];
      var (r, op) := script[|script| - 1];
      IsolatedRun(kv, rest, root);
      var before := SharedRun(kv, rest, root).0;
      if r == root {
        var mine := Only(rest, root) + [op];
        assert mine[..|mine| - 1] == Only(rest, root);
        ViewRefines(before, root, op);
        if op.Get? { ViewSlot(before, root, op.key); assert Full(root, op.key) == root + "/" + op.key; }
      } else {
        NoInterference(before, r, op, root);
        assert Only(script, root) == Only(rest, root) + [] == Only(rest, root);
        assert SharedRun(kv, script, root).1 == SharedRun(kv, rest, root).1 + [] == SharedRun(kv, rest, root).1;
      }
    }
  }

  /** The empty prefix reaches past the root: it also clears a sibling root that merely
      starts with the same letters. */
  lemma EmptyPrefixReachesSiblings(kv: Kv, root: string, sibling: string)
    requires root != "" && root <= sibling
    ensures View(Apply(kv, root, DeletePrefix("")), sibling) == map[]
  {
  }
}
