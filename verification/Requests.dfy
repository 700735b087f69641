/** Stores sharing one etcd server, interleaved request by request: a write with directories
    is many requests, and other stores' requests come in between. */
module Requests {
  import opened Text
  import opened EtcdTree
  import opened EtcdRuns
  import opened Isolation

  /** Where a store stands inside `buildForDirectory`: about to look at the directory `p`, or
      about to tag it because it did not read as tagged. */
  datatype Task = Idle | Look(p: string) | Tag(p: string)

  /** A store at work on a list of operations, with the answers its Gets got so far. */
  datatype Worker = Worker(todo: seq<Op>, task: Task, answers: seq<string>)

  predicate Finished(w: Worker) {
    w.task.Idle? && w.todo == []
  }

  /** What comes after `at` has been seen to: its deepest ancestor, if it has one. */
  function Next(at: string): Task {
    if DirParts(at) == [] then Idle else Look(Join(DirParts(at)))
  }

  /** One request of one store. */
  function Turn(kv: Kv, root: string, w: Worker): (Kv, Worker) {
    match w.task
    case Look(p) =>
      (kv, w.(task := if IsTag(Lookup(kv, Full(root, p))) then Next(p) else Tag(p)))
    case Tag(p) =>
      (Write(kv, Full(root, p), TAG), w.(task := Next(p)))
    case Idle =>
      if w.todo == [] then (kv, w)
      else
        var op, next := w.todo[0], w.(todo := w.todo[1..]);
        match op
        case Store(key, e, build) =>
          (Write(kv, Full(root, key), e),
           next.(task := if build && Full(root, key) != "" then Next(key) else Idle))
        case Get(key) => (kv, next.(answers := w.answers + [Lookup(kv, Full(root, key))]))
        case Delete(_) => (Apply(kv, root, op), next)
        case DeletePrefix(_) => (Apply(kv, root, op), next)
  }

  type Workers = map<string, Worker>

  /** The stores named by `schedule` send one request each, in that order. */
  function Turns(kv: Kv, workers: Workers, schedule: seq<string>): (Kv, Workers)
    requires forall r | r in schedule :: r in workers
    decreases |schedule|
  {
    if schedule == [] then (kv, workers)
    else
      var r := schedule[0];
      var (kv', w) := Turn(kv, r, workers[r]);
      Turns(kv', workers[r := w], schedule[1..])
  }

  /** No other store reaches into `root`. */
  ghost predicate Apart(workers: Workers, root: string) {
    forall r | r in workers && r != root ::
      && r != "" && Separate(r + "/", root + "/")
      && forall op | op in workers[r].todo :: Separate(Reach(r, op), root + "/")
  }

  // ---------- the tree a store is on its way to ----------

  function SetTags(m: Kv, dirs: set<string>): Kv {
    m + map a | a in dirs && !(a in m && IsTag(m[a].value)) :: TAG
  }

  /** The store's own tree once the operation under way is through. */
  function Settled(m: Kv, task: Task): Kv {
    match task
    case Idle => m
    case Look(p) => SetTags(m, Ancestors(p) + {p})
    case Tag(p) => SetTags(m[p := TAG], Ancestors(p))
  }

  /** The tree, and all answers, once every operation is through. */
  function Outcome(m: Kv, w: Worker): (Kv, seq<string>) {
    var (m', answers) := TreeRun(Settled(m, w.task), w.todo);
    (m', w.answers + answers)
  }

  // ---------- lemmas ----------

  lemma {:induction false} TreeRunFromTheFront(m: Kv, op: Op, ops: seq<Op>)
    ensures TreeRun(m, [op] + ops) ==
            var (m', answers) := TreeRun(TreeApply(m, op), ops); (m', TreeAnswer(m, op) + answers)
    decreases |ops|
  {
    var all := [op] + ops;
    if ops == [] {
      assert all[..|all| - 1] == [] && all[|all| - 1] == op;
      assert [] + TreeAnswer(m, op) == TreeAnswer(m, op) + [];
    } else {
      var rest := ops[..|ops| - 1];
      var last := ops[|ops| - 1];
      assert all[..|all| - 1] == [op] + rest && all[|all| - 1] == last;
      TreeRunFromTheFront(m, op, rest);
      var first := TreeAnswer(m, op);
      var (m', answers) := TreeRun(TreeApply(m, op), rest);
      assert (first + answers) + TreeAnswer(m', last) == first + (answers + TreeAnswer(m', last));
    }
  }

  lemma TaggedAlready(m: Kv, dirs: set<string>, p: string)
    requires IsTag(Lookup(m, p))
    ensures SetTags(m, dirs + {p}) == SetTags(m, dirs)
  {
    assert !IsTag("");
  }

  lemma TagFirst(m: Kv, dirs: set<string>, p: string)
    requires p !in dirs && !IsTag(Lookup(m, p))
    ensures SetTags(m, dirs + {p}) == SetTags(m[p := TAG], dirs)
  {
  }

  lemma StoreSetsTags(m: Kv, key: string, e: Entry)
    ensures SetTags(m[key := e], Ancestors(key)) == TreeApply(m, Store(key, e, true))
  {
    AncestorsAre(key, key);
  }

  lemma StoreAlone(m: Kv, key: string, e: Entry)
    ensures TreeApply(m, Store(key, e, false)) == m[key := e]
  {
  }

  lemma SettledNext(m: Kv, at: string)
    ensures Settled(m, Next(at)) == SetTags(m, Ancestors(at))
  {
    DirPartsPeel(at);
  }

  /** A write of one key, in the store's own tree. */
  lemma ViewWrite(kv: Kv, root: string, key: string, e: Entry)
    requires root != ""
    ensures View(Write(kv, Full(root, key), e), root) == View(kv, root)[key := e]
  {
    ViewRefines(kv, root, Store(key, e, false));
    StoreAlone(View(kv, root), key, e);
  }

  lemma ViewLookup(kv: Kv, root: string, key: string)
    requires root != ""
    ensures Lookup(kv, Full(root, key)) == Lookup(View(kv, root), key)
  {
    ViewSlot(kv, root, key);
    assert Full(root, key) == root + "/" + key;
  }

  /** A request of `buildForDirectory` keeps the tree its store is on its way to. */
  lemma TaskSettles(kv: Kv, root: string, w: Worker)
    requires root != "" && !w.task.Idle?
    ensures var (kv', w') := Turn(kv, root, w);
            Settled(View(kv', root), w'.task) == Settled(View(kv, root), w.task)
  {
    var m := View(kv, root);
    match w.task
    case Look(p) =>
      ViewLookup(kv, root, p);
      if IsTag(Lookup(m, p)) {
        TaggedAlready(m, Ancestors(p), p);
        SettledNext(m, p);
      } else {
        AncestorsAre(p, p);
        TagFirst(m, Ancestors(p), p);
      }
    case Tag(p) =>
      ViewWrite(kv, root, p, TAG);
      SettledNext(m[p := TAG], p);
  }

  /** The first request of an operation puts its store on the way to the operation's effect. */
  lemma OperationStarts(kv: Kv, root: string, w: Worker)
    requires root != "" && w.task.Idle? && w.todo != []
    ensures var (kv', w') := Turn(kv, root, w);
            && Settled(View(kv', root), w'.task) == TreeApply(View(kv, root), w.todo[0])
            && w'.answers == w.answers + TreeAnswer(View(kv, root), w.todo[0])
            && w'.todo == w.todo[1..]
  {
    var op, m := w.todo[0], View(kv, root);
    match op
    case Store(key, e, build) =>
      ViewWrite(kv, root, key, e);
      if build {
        SettledNext(m[key := e], key);
        StoreSetsTags(m, key, e);
      } else {
        StoreAlone(m, key, e);
      }
    case Get(key) => ViewLookup(kv, root, key);
    case Delete(_) => ViewRefines(kv, root, op);
    case DeletePrefix(_) => ViewRefines(kv, root, op);
  }

  lemma OutcomeUnderWay(m: Kv, w: Worker, m': Kv, w': Worker)
    requires w.task.Idle? && w.todo != []
    requires Settled(m', w'.task) == TreeApply(m, w.todo[0])
    requires w'.answers == w.answers + TreeAnswer(m, w.todo[0]) && w'.todo == w.todo[1..]
    ensures Outcome(m', w') == Outcome(m, w)
  {
    var op, rest := w.todo[0], w.todo[1..];
    assert w.todo == [op] + rest;
    TreeRunFromTheFront(m, op, rest);
    var first, answers := TreeAnswer(m, op), TreeRun(TreeApply(m, op), rest).1;
    assert w.answers + (first + answers) == (w.answers + first) + answers;
  }

  /** No request of a store changes what the store ends with. */
  lemma TurnKeepsOutcome(kv: Kv, root: string, w: Worker)
    requires root != ""
    ensures var (kv', w') := Turn(kv, root, w);
            Outcome(View(kv', root), w') == Outcome(View(kv, root), w)
  {
    if !w.task.Idle? {
      TaskSettles(kv, root, w);
    } else if w.todo != [] {
      OperationStarts(kv, root, w);
      var (kv', w') := Turn(kv, root, w);
      OutcomeUnderWay(View(kv, root), w, View(kv', root), w');
    }
  }

  /** A request of a store that keeps apart leaves another's tree alone. */
  lemma TurnStaysOut(kv: Kv, r: string, w: Worker, root: string)
    requires r != "" && Separate(r + "/", root + "/")
    requires forall op | op in w.todo :: Separate(Reach(r, op), root + "/")
    ensures var (kv', w') := Turn(kv, r, w);
            && View(kv', root) == View(kv, root)
            && forall op | op in w'.todo :: Separate(Reach(r, op), root + "/")
  {
    match w.task
    case Look(_) =>
    case Tag(p) => NoInterference(kv, r, Store(p, TAG, false), root);
    case Idle =>
      if w.todo != [] {
        match w.todo[0]
        case Store(key, e, _) => NoInterference(kv, r, Store(key, e, false), root);
        case Get(_) =>
        case Delete(_) => NoInterference(kv, r, w.todo[0], root);
        case DeletePrefix(_) => NoInterference(kv, r, w.todo[0], root);
      }
  }

  /** However the stores' requests interleave, what a store with a separate root is on its
      way to, tree and answers, never changes. */
  lemma {:induction false} OutcomeIsFixed(kv: Kv, workers: Workers, schedule: seq<string>, root: string)
    requires root != "" && root in workers && Apart(workers, root)
    requires forall r | r in schedule :: r in workers
    ensures var (kv', workers') := Turns(kv, workers, schedule);
            && root in workers'
            && Outcome(View(kv', root), workers'[root]) == Outcome(View(kv, root), workers[root])
    decreases |schedule|
  {
    if schedule != [] {
      var r := schedule[0];
      var (kv', w) := Turn(kv, r, workers[r]);
      if r == root {
        TurnKeepsOutcome(kv, root, workers[root]);
      } else {
        TurnStaysOut(kv, r, workers[r], root);
      }
      OutcomeIsFixed(kv', workers[r := w], schedule[1..], root);
    }
  }

  /** So a store that has finished holds the tree, and got the answers, of its own operations
      run one after the other with nobody else about. */
  lemma RequestsIsolated(kv: Kv, workers: Workers, schedule: seq<string>, root: string)
    requires root != "" && root in workers && Apart(workers, root)
    requires forall r | r in schedule :: r in workers
    requires workers[root].task.Idle? && workers[root].answers == []
    ensures var (kv', workers') := Turns(kv, workers, schedule);
            && root in workers'
            && (Finished(workers'[root]) ==>
                  (View(kv', root), workers'[root].answers) == TreeRun(View(kv, root), workers[root].todo))
  {
    OutcomeIsFixed(kv, workers, schedule, root);
    var (kv', workers') := Turns(kv, workers, schedule);
    var w := workers'[root];
    assert w.answers + [] == w.answers;
    var answers := TreeRun(View(kv, root), workers[root].todo).1;
    assert [] + answers == answers;
  }

  // ---------- everyone finishes ----------

  /** A bound on the requests a store has still to send. */
  function Left(w: Worker): nat {
    OpsLeft(w.todo) + TaskLeft(w.task)
  }

  function TaskLeft(task: Task): nat {
    match task
    case Idle => 0
    case Look(p) => 2 + 2 * CountSlashes(p)
    case Tag(p) => 1 + 2 * CountSlashes(p)
  }

  function OpsLeft(ops: seq<Op>): nat {
    if ops == [] then 0
    else (if ops[0].Store? then 1 + 2 * CountSlashes(ops[0].key) else 1) + OpsLeft(ops[1..])
  }

  function TurnsOf(schedule: seq<string>, root: string): nat {
    if schedule == [] then 0 else (if schedule[0] == root then 1 else 0) + TurnsOf(schedule[1..], root)
  }

  lemma NextIsShorter(at: string)
    ensures TaskLeft(Next(at)) <= 2 * CountSlashes(at)
  {
    DirPartsPeel(at);
    AncestorCount(at);
    if DirParts(at) != [] { AncestorCount(Join(DirParts(at))); }
  }

  lemma TurnCounts(kv: Kv, root: string, w: Worker)
    ensures var w' := Turn(kv, root, w).1;
            if Finished(w) then w' == w else Left(w') < Left(w)
  {
    match w.task
    case Look(p) => NextIsShorter(p);
    case Tag(p) => NextIsShorter(p);
    case Idle =>
      if w.todo != [] && w.todo[0].Store? { NextIsShorter(w.todo[0].key); }
  }

  /** Whatever the others do, a store is through after so many turns of its own: one request
      for each operation and two for each '/' of a written path. */
  lemma {:induction false} TurnsSuffice(kv: Kv, workers: Workers, schedule: seq<string>, root: string)
    requires root in workers && forall r | r in schedule :: r in workers
    ensures var workers' := Turns(kv, workers, schedule).1;
            && root in workers'
            && (Left(workers[root]) <= TurnsOf(schedule, root) ==> Finished(workers'[root]))
    decreases |schedule|
  {
    if schedule != [] {
      var r := schedule[0];
      var (kv', w) := Turn(kv, r, workers[r]);
      TurnCounts(kv, r, workers[r]);
      TurnsSuffice(kv', workers[r := w], schedule[1..], root);
    }
  }
}
