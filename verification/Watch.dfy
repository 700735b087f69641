/** Consul's key-prefix watch (consul/core.go:494-546): two snapshots are compared position by
    position and the differences reported as PUT events. */
module Watch {

  datatype Pair = Pair(key: string, value: string, created: nat, modified: nat)

  /** A Go slice of pairs: nil and empty differ for the handler. */
  datatype Snapshot = Nil | Pairs(items: seq<Pair>)

  /** What the watch plan may hand over. */
  datatype Data = NoData | One(pair: Pair) | Listing(snapshot: Snapshot) | Other

  datatype Event = Put(key: string, value: string) | Delete(key: string)

  function Items(s: Snapshot): seq<Pair> {
    if s.Nil? then [] else s.items
  }

  // ---------- the handler ----------

  /** Whether position `i` of the new list is reported against the saved one. */
  predicate Reported(now: seq<Pair>, saved: seq<Pair>, i: nat)
    requires i < |now|
  {
    i >= |saved| || (now[i].modified != now[i].created && now[i].modified != saved[i].modified)
  }

  /** The events of the first `n` positions. */
  function Puts(now: seq<Pair>, saved: seq<Pair>, n: nat): seq<Event>
    requires n <= |now|
  {
    if n == 0 then []
    else
      Puts(now, saved, n - 1) +
      if Reported(now, saved, n - 1) then [Put(now[n - 1].key, now[n - 1].value)] else []
  }

  function Emitted(prefix: string, saved: Snapshot, data: Data): seq<Event> {
    match data
    case NoData => [Delete(prefix)]
    case One(p) => [Put(p.key, p.value)]
    case Listing(s) => if saved.Nil? then [] else Puts(Items(s), saved.items, |Items(s)|)
    case Other => []
  }

  /** What is kept for the next comparison. */
  function NextSaved(saved: Snapshot, data: Data): Snapshot {
    if data.Listing? then data.snapshot else saved
  }

  class Watcher {
    const prefix: string
    var saved: Snapshot
    var events: seq<Event>  // the calls of the watch function

    constructor (prefix: string)
      ensures this.prefix == prefix && saved == Nil && events == []
    {
      this.prefix, saved, events := prefix, Nil, [];
    }

    method Handle(data: Data)
      modifies this
      ensures events == old(events) + Emitted(prefix, old(saved), data)
      ensures saved == NextSaved(old(saved), data)
      ensures data.NoData? ==> events == old(events) + [Delete(prefix)]
      ensures data.One? ==> events == old(events) + [Put(data.pair.key, data.pair.value)]
      ensures data.Other? || (data.Listing? && old(saved).Nil?) ==> events == old(events)
      ensures saved == if data.Listing? then data.snapshot else old(saved)
    {
      match data
      case NoData => events := events + [Delete(prefix)];
      case One(p) => events := events + [Put(p.key, p.value)];
      case Other =>
      case Listing(kvps) =>
        if saved.Nil? {
          saved := kvps;
        } else {
          var now, before := Items(kvps), saved.items;
          var len1, len2 := |now|, |before|;
          var len := if len1 < len2 then len2 else len1;
          for i := 0 to len
            invariant saved == old(saved)
            invariant events == old(events) + Puts(now, before, if i < len1 then i else len1)
          {
            var checked := false;
            if i < len1 && i >= len2 {
              checked := true;
            } else if i < len1 && i < len2 {
              if now[i].modified != now[i].created && now[i].modified != before[i].modified {
                checked := true;
              }
            }
            if checked {
              events := events + [Put(now[i].key, now[i].value)];
            }
          }
          saved := kvps;
        }
    }
  }

  /** The events are exactly the reported positions, with their current values. */
  lemma {:induction false} PutsAre(now: seq<Pair>, saved: seq<Pair>, n: nat, e: Event)
    requires n <= |now|
    ensures e in Puts(now, saved, n) <==>
            exists i :: 0 <= i < n && Reported(now, saved, i) && e == Put(now[i].key, now[i].value)
  {
    if n > 0 {
      PutsAre(now, saved, n - 1, e);
      if i :| 0 <= i < n && Reported(now, saved, i) && e == Put(now[i].key, now[i].value) {
        assert i == n - 1 || e in Puts(now, saved, n - 1);
      }
    }
  }

  /** The calls stand for these positions of the list, one for each, in the order of the list. */
  ghost predicate CallsFor(events: seq<Event>, now: seq<Pair>, at: seq<nat>) {
    && |events| == |at|
    && (forall j | 0 <= j < |at| :: at[j] < |now| && events[j] == Put(now[at[j]].key, now[at[j]].value))
    && (forall j, k | 0 <= j < k < |at| :: at[j] < at[k])
  }

  /** The reported positions among the first `n`. */
  function Positions(now: seq<Pair>, saved: seq<Pair>, n: nat): seq<nat>
    requires n <= |now|
  {
    if n == 0 then []
    else Positions(now, saved, n - 1) + if Reported(now, saved, n - 1) then [n - 1] else []
  }

  lemma {:induction false} PositionsAre(now: seq<Pair>, saved: seq<Pair>, n: nat, i: nat)
    requires n <= |now|
    ensures i in Positions(now, saved, n) <==> i < n && Reported(now, saved, i)
  {
    if n > 0 { PositionsAre(now, saved, n - 1, i); }
  }

  lemma OneCallMore(events: seq<Event>, now: seq<Pair>, at: seq<nat>, i: nat)
    requires CallsFor(events, now, at) && i < |now| && forall j | 0 <= j < |at| :: at[j] < i
    ensures CallsFor(events + [Put(now[i].key, now[i].value)], now, at + [i])
  {
  }

  /** Each reported position is called out once, in list order, and nothing else is. */
  lemma {:induction false} PutsInOrder(now: seq<Pair>, saved: seq<Pair>, n: nat)
    requires n <= |now|
    ensures CallsFor(Puts(now, saved, n), now, Positions(now, saved, n))
  {
    if n > 0 {
      PutsInOrder(now, saved, n - 1);
      var calls, at := Puts(now, saved, n - 1), Positions(now, saved, n - 1);
      if Reported(now, saved, n - 1) {
        forall j | 0 <= j < |at| ensures at[j] < n - 1 { PositionsAre(now, saved, n - 1, at[j]); }
        OneCallMore(calls, now, at, n - 1);
      } else {
        assert calls + [] == calls && at + [] == at;
      }
    }
  }

  /** So a key is called out at most once. */
  lemma EachKeyOnce(saved: Snapshot, now: Snapshot, prefix: string)
    requires Distinct(Items(now))
    ensures var events := Emitted(prefix, saved, Listing(now));
            && |events| <= |Items(now)|
            && forall j, k | 0 <= j < k < |events| :: events[j].key != events[k].key
  {
    if !saved.Nil? {
      PutsInOrder(Items(now), saved.items, |Items(now)|);
      PutsAreFew(Items(now), saved.items, |Items(now)|);
    }
  }

  lemma {:induction false} PutsAreFew(now: seq<Pair>, saved: seq<Pair>, n: nat)
    requires n <= |now|
    ensures |Puts(now, saved, n)| <= n
  {
    if n > 0 { PutsAreFew(now, saved, n - 1); }
  }

  // ---------- the watched server ----------

  datatype Rec = Rec(value: string, created: nat, modified: nat)

  /** Consul's table: every change takes the next index. */
  datatype Db = Db(recs: map<string, Rec>, index: nat)

  datatype Change = Set(key: string, value: string) | Remove(key: string)

  ghost predicate Valid(db: Db) {
    && (forall k | k in db.recs :: db.recs[k].created <= db.recs[k].modified <= db.index)
    && (forall k, k' | k in db.recs && k' in db.recs && k != k' :: db.recs[k].modified != db.recs[k'].modified)
  }

  function Changed(db: Db, c: Change): Db {
    match c
    case Set(k, v) =>
      Db(db.recs[k := Rec(v, if k in db.recs then db.recs[k].created else db.index + 1, db.index + 1)], db.index + 1)
    case Remove(k) => Db(db.recs - {k}, db.index + 1)
  }

  function ChangedAll(db: Db, cs: seq<Change>): Db {
    if cs == [] then db else Changed(ChangedAll(db, cs[..|cs| - 1]), cs[|cs| - 1])
  }

  /** `pairs` binds `k`. */
  ghost predicate Binds(pairs: seq<Pair>, k: string) {
    exists i :: 0 <= i < |pairs| && pairs[i].key == k
  }

  /** The list of what is stored under a prefix, each key once; any order will do. An empty
      list may be handed over as nil. */
  ghost predicate Lists(pairs: seq<Pair>, db: Db, prefix: string) {
    && (forall i | 0 <= i < |pairs| ::
          var p := pairs[i];
          prefix <= p.key && p.key in db.recs && db.recs[p.key] == Rec(p.value, p.created, p.modified))
    && (forall k {:trigger Binds(pairs, k)} | k in db.recs && prefix <= k :: Binds(pairs, k))
    && (forall i, j | 0 <= i < j < |pairs| :: pairs[i].key != pairs[j].key)
  }

  /** What still bears an old index has not been touched since; removals aside, nothing is lost. */
  lemma {:induction false} OldIndexUntouched(db: Db, cs: seq<Change>)
    requires Valid(db)
    ensures var db' := ChangedAll(db, cs);
            && Valid(db') && db'.index == db.index + |cs|
            && (forall k | k in db'.recs && db'.recs[k].modified <= db.index ::
                  k in db.recs && db.recs[k] == db'.recs[k])
            && (forall k | k in db.recs && k !in db'.recs :: Remove(k) in cs)
            && (forall k | k in db'.recs && k in db.recs && db'.recs[k].created > db.index :: Remove(k) in cs)
    decreases |cs|
  {
    if cs != [] {
      OldIndexUntouched(db, cs[..|cs| - 1]);
    }
  }

  // ---------- one comparison ----------

  /** Two snapshots of one server, the saved and the current one. */
  ghost predicate Compared(db: Db, cs: seq<Change>, prefix: string, saved: Snapshot, now: Snapshot) {
    ComparedLists(db, cs, prefix, Items(saved), Items(now))
  }

  ghost predicate ComparedLists(db: Db, cs: seq<Change>, prefix: string, saved: seq<Pair>, now: seq<Pair>) {
    Valid(db) && Lists(saved, db, prefix) && Lists(now, ChangedAll(db, cs), prefix)
  }

  /** Created since the saved snapshot and not changed again. */
  predicate Fresh(p: Pair, since: nat) {
    p.modified == p.created && p.modified > since
  }

  /** What stands at a position is announced exactly if the position is reported. */
  lemma AnnouncedInPlace(now: seq<Pair>, saved: seq<Pair>, i: nat)
    requires Distinct(now) && i < |now|
    ensures Put(now[i].key, now[i].value) in Puts(now, saved, |now|) <==> Reported(now, saved, i)
  {
    var e := Put(now[i].key, now[i].value);
    PutsAre(now, saved, |now|, e);
    if j :| 0 <= j < |now| && Reported(now, saved, j) && e == Put(now[j].key, now[j].value) {
      assert now[j].key == now[i].key;
      assert j == i;
    }
  }

  /** A key written since the saved snapshot is announced with its current value, however
      positions have shifted, exactly if the saved snapshot is not nil and the key was not
      created since, left alone, and placed before the saved length. */
  lemma UpdatesAnnounced(db: Db, cs: seq<Change>, prefix: string, saved: Snapshot, now: Snapshot, i: nat)
    requires Compared(db, cs, prefix, saved, now) && i < |Items(now)| && Items(now)[i].modified > db.index
    ensures var p := Items(now)[i];
            Put(p.key, p.value) in Emitted(prefix, saved, Listing(now))
            <==> !saved.Nil? && (i >= |saved.items| || p.modified != p.created)
  {
    if !saved.Nil? {
      var current, before := Items(now), saved.items;
      AnnouncedInPlace(current, before, i);
      if i < |before| {
        assert before[i].modified <= db.index;
      }
    }
  }

  /** A key not written since the saved snapshot is announced all the same exactly if it stands
      behind the saved length, or was changed after its creation and another key stood in its
      place. */
  lemma UntouchedAnnounced(db: Db, cs: seq<Change>, prefix: string, saved: Snapshot, now: Snapshot, i: nat)
    requires Compared(db, cs, prefix, saved, now) && i < |Items(now)| && Items(now)[i].modified <= db.index
    ensures var p := Items(now)[i];
            Put(p.key, p.value) in Emitted(prefix, saved, Listing(now))
            <==> !saved.Nil? && (i >= |saved.items| || (p.modified != p.created && saved.items[i].key != p.key))
  {
    if !saved.Nil? {
      var current, before := Items(now), saved.items;
      AnnouncedInPlace(current, before, i);
      if i < |before| { IndexTells(db, cs, prefix, before, current, i, i); }
    }
  }

  /** Of what was not written since, the index tells the key. */
  lemma IndexTells(db: Db, cs: seq<Change>, prefix: string, saved: seq<Pair>, now: seq<Pair>, i: nat, j: nat)
    requires ComparedLists(db, cs, prefix, saved, now) && i < |now| && j < |saved| && now[i].modified <= db.index
    ensures saved[j].modified == now[i].modified <==> saved[j].key == now[i].key
  {
    OldIndexUntouched(db, cs);
    var k, k' := now[i].key, saved[j].key;
    assert db.recs[k] == ChangedAll(db, cs).recs[k];
    assert db.recs[k].modified == now[i].modified && db.recs[k'].modified == saved[j].modified;
  }

  /** Nothing but current pairs is announced. */
  lemma AnnouncedIsCurrent(prefix: string, saved: Snapshot, now: Snapshot, e: Event)
    requires e in Emitted(prefix, saved, Listing(now))
    ensures exists p :: p in Items(now) && e == Put(p.key, p.value)
  {
    var current, before := Items(now), saved.items;
    PutsAre(current, before, |current|, e);
    var i :| 0 <= i < |current| && Reported(current, before, i) && e == Put(current[i].key, current[i].value);
    assert current[i] in current;
  }

  // ---------- a mirror fed with the events ----------

  function AsMap(pairs: seq<Pair>): map<string, string> {
    if pairs == [] then map[] else AsMap(pairs[..|pairs| - 1])[pairs[|pairs| - 1].key := pairs[|pairs| - 1].value]
  }

  function Feed(m: map<string, string>, events: seq<Event>): map<string, string> {
    if events == [] then m
    else
      var rest, e := Feed(m, events[..|events| - 1]), events[|events| - 1];
      if e.Put? then rest[e.key := e.value] else rest
  }

  predicate Distinct(pairs: seq<Pair>) {
    forall i, j | 0 <= i < j < |pairs| :: pairs[i].key != pairs[j].key
  }

  lemma {:induction false} AsMapBinds(pairs: seq<Pair>, k: string)
    ensures k in AsMap(pairs) <==> Binds(pairs, k)
    decreases |pairs|
  {
    if pairs != [] {
      AsMapBinds(pairs[..|pairs| - 1], k);
    }
  }

  lemma {:induction false} AsMapAt(pairs: seq<Pair>, i: nat)
    requires Distinct(pairs) && i < |pairs|
    ensures pairs[i].key in AsMap(pairs) && AsMap(pairs)[pairs[i].key] == pairs[i].value
    decreases |pairs|
  {
    if i < |pairs| - 1 {
      AsMapAt(pairs[..|pairs| - 1], i);
    }
  }

  lemma FeedAppend(m: map<string, string>, events: seq<Event>, e: Event)
    ensures Feed(m, events + [e]) == if e.Put? then Feed(m, events)[e.key := e.value] else Feed(m, events)
  {
  }

  /** Keys outside the current list keep their place in the mirror. */
  lemma {:induction false} FeedElsewhere(m: map<string, string>, now: seq<Pair>, saved: seq<Pair>, n: nat, k: string)
    requires n <= |now| && forall i | 0 <= i < n :: now[i].key != k
    ensures var fed := Feed(m, Puts(now, saved, n));
            (k in fed <==> k in m) && (k in m ==> fed[k] == m[k])
  {
    if n > 0 {
      FeedElsewhere(m, now, saved, n - 1, k);
      FeedOne(m, now, saved, n);
    }
  }

  lemma FeedOne(m: map<string, string>, now: seq<Pair>, saved: seq<Pair>, n: nat)
    requires 0 < n <= |now|
    ensures Feed(m, Puts(now, saved, n)) ==
            var before := Feed(m, Puts(now, saved, n - 1));
            if Reported(now, saved, n - 1) then before[now[n - 1].key := now[n - 1].value] else before
  {
    if Reported(now, saved, n - 1) {
      FeedAppend(m, Puts(now, saved, n - 1), Put(now[n - 1].key, now[n - 1].value));
    } else {
      assert Puts(now, saved, n) == Puts(now, saved, n - 1);
    }
  }

  /** A listed key of the mirror after the events: new if reported, else as it was. */
  lemma {:induction false} FeedAt(m: map<string, string>, now: seq<Pair>, saved: seq<Pair>, n: nat, i: nat)
    requires i < n <= |now| && Distinct(now)
    ensures var fed, k := Feed(m, Puts(now, saved, n)), now[i].key;
            if Reported(now, saved, i) then k in fed && fed[k] == now[i].value
            else (k in fed <==> k in m) && (k in m ==> fed[k] == m[k])
  {
    FeedOne(m, now, saved, n);
    if i == n - 1 {
      FeedElsewhere(m, now, saved, n - 1, now[i].key);
    } else {
      FeedAt(m, now, saved, n - 1, i);
    }
  }

  ghost predicate HadAlready(saved: seq<Pair>, p: Pair) {
    exists j :: 0 <= j < |saved| && saved[j].key == p.key && saved[j].value == p.value
  }

  ghost predicate Followed(db: Db, saved: seq<Pair>, now: seq<Pair>, i: int)
    requires 0 <= i < |now|
  {
    i < |saved| && Fresh(now[i], db.index) ==> HadAlready(saved, now[i])
  }

  /** What one comparison can follow: no key vanished, and every fresh key before the saved
      length was there before with the value it has now. */
  ghost predicate FollowsList(db: Db, saved: seq<Pair>, now: seq<Pair>) {
    && (forall i | 0 <= i < |saved| :: Binds(now, saved[i].key))
    && (forall i | 0 <= i < |now| :: Followed(db, saved, now, i))
  }

  /** What the watch can keep up with: after a nil snapshot, nothing at all. */
  ghost predicate KeepsUp(db: Db, saved: Snapshot, now: Snapshot) {
    if saved.Nil? then Items(now) == [] else FollowsList(db, saved.items, Items(now))
  }

  /** A mirror that equalled the saved snapshot equals the current one after the events
      exactly when the watch keeps up. */
  lemma MirrorExact(db: Db, cs: seq<Change>, prefix: string, saved: Snapshot, now: Snapshot)
    requires Compared(db, cs, prefix, saved, now)
    ensures Feed(AsMap(Items(saved)), Emitted(prefix, saved, Listing(now))) == AsMap(Items(now))
            <==> KeepsUp(db, saved, now)
  {
    if saved.Nil? {
      EmptyAsMap(Items(now));
    } else {
      ComparisonExact(db, cs, prefix, saved.items, Items(now));
    }
  }

  lemma EmptyAsMap(pairs: seq<Pair>)
    ensures AsMap(pairs) == map[] <==> pairs == []
  {
    if pairs != [] { assert pairs[|pairs| - 1].key in AsMap(pairs); }
  }

  lemma ComparisonExact(db: Db, cs: seq<Change>, prefix: string, saved: seq<Pair>, now: seq<Pair>)
    requires ComparedLists(db, cs, prefix, saved, now)
    ensures Feed(AsMap(saved), Puts(now, saved, |now|)) == AsMap(now) <==> FollowsList(db, saved, now)
  {
    var fed := Feed(AsMap(saved), Puts(now, saved, |now|));
    IsAsMap(fed, now);
    NothingVanished(saved, now);
    forall i | 0 <= i < |now| ensures RightAt(fed, now, i) <==> Followed(db, saved, now, i) {
      MirrorAt(db, cs, prefix, saved, now, i);
    }
  }

  predicate RightAt(m: map<string, string>, now: seq<Pair>, i: int)
    requires 0 <= i < |now|
  {
    now[i].key in m && m[now[i].key] == now[i].value
  }

  lemma IsAsMap(m: map<string, string>, now: seq<Pair>)
    requires Distinct(now)
    ensures m == AsMap(now) <==>
            (forall i | 0 <= i < |now| :: RightAt(m, now, i)) && (forall k | k in m :: Binds(now, k))
  {
    forall i | 0 <= i < |now| ensures RightAt(AsMap(now), now, i) { AsMapAt(now, i); }
    forall k ensures k in AsMap(now) <==> Binds(now, k) { AsMapBinds(now, k); }
    if (forall i | 0 <= i < |now| :: RightAt(m, now, i)) && (forall k | k in m :: Binds(now, k)) {
      forall k | k in AsMap(now) ensures k in m && m[k] == AsMap(now)[k] {
        var i :| 0 <= i < |now| && now[i].key == k;
        assert RightAt(m, now, i) && RightAt(AsMap(now), now, i);
      }
    }
  }

  lemma NothingVanished(saved: seq<Pair>, now: seq<Pair>)
    ensures (forall k | k in Feed(AsMap(saved), Puts(now, saved, |now|)) :: Binds(now, k))
            <==> (forall i | 0 <= i < |saved| :: Binds(now, saved[i].key))
  {
    var fed := Feed(AsMap(saved), Puts(now, saved, |now|));
    forall k | !Binds(now, k) ensures k in fed <==> Binds(saved, k) {
      FeedElsewhere(AsMap(saved), now, saved, |now|, k);
      AsMapBinds(saved, k);
    }
    if i :| 0 <= i < |saved| && !Binds(now, saved[i].key) {
      assert Binds(saved, saved[i].key);
      assert saved[i].key in fed;
    }
  }

  /** A listed key comes out right unless it is fresh before the saved length and was not
      already there with its value. */
  lemma MirrorAt(db: Db, cs: seq<Change>, prefix: string, saved: seq<Pair>, now: seq<Pair>, i: nat)
    requires ComparedLists(db, cs, prefix, saved, now) && i < |now|
    ensures var fed, k := Feed(AsMap(saved), Puts(now, saved, |now|)), now[i].key;
            (k in fed && fed[k] == now[i].value) <==> Followed(db, saved, now, i)
  {
    var k := now[i].key;
    FeedAt(AsMap(saved), now, saved, |now|, i);
    if !Reported(now, saved, i) {
      OldIndexUntouched(db, cs);
      AsMapBinds(saved, k);
      if Binds(saved, k) {
        var j :| 0 <= j < |saved| && saved[j].key == k;
        AsMapAt(saved, j);
      }
      assert saved[i].modified <= db.index;
    } else {
      assert i < |saved| ==> now[i].modified != now[i].created;
    }
  }

  // ---------- whole runs ----------

  /** One period of a run: what changed on the server, and the list that was handed over. */
  datatype Period = Period(changes: seq<Change>, now: Snapshot)

  function DbAfter(db: Db, run: seq<Period>): Db {
    if run == [] then db else ChangedAll(DbAfter(db, run[..|run| - 1]), run[|run| - 1].changes)
  }

  /** What the watcher holds after a run that began with `first` saved. */
  function SavedAfter(first: Snapshot, run: seq<Period>): Snapshot {
    if run == [] then first
    else NextSaved(SavedAfter(first, run[..|run| - 1]), Listing(run[|run| - 1].now))
  }

  ghost predicate WatchRun(db: Db, prefix: string, first: Snapshot, run: seq<Period>) {
    && Valid(db) && Lists(Items(first), db, prefix)
    && (run != [] ==>
          && WatchRun(db, prefix, first, run[..|run| - 1])
          && Lists(Items(run[|run| - 1].now), DbAfter(db, run), prefix))
  }

  /** The events of the last period of a run. */
  function LastEvents(prefix: string, first: Snapshot, run: seq<Period>): seq<Event>
    requires run != []
  {
    Emitted(prefix, SavedAfter(first, run[..|run| - 1]), Listing(run[|run| - 1].now))
  }

  /** The mirror seeded with the first list and fed every event since. */
  function MirrorAfter(prefix: string, first: Snapshot, run: seq<Period>): map<string, string> {
    if run == [] then AsMap(Items(first))
    else Feed(MirrorAfter(prefix, first, run[..|run| - 1]), LastEvents(prefix, first, run))
  }

  ghost predicate MirrorAlwaysRight(prefix: string, first: Snapshot, run: seq<Period>) {
    && MirrorAfter(prefix, first, run) == AsMap(Items(SavedAfter(first, run)))
    && (run != [] ==> MirrorAlwaysRight(prefix, first, run[..|run| - 1]))
  }

  ghost predicate AlwaysKeepsUp(db: Db, first: Snapshot, run: seq<Period>) {
    run != [] ==>
      var rest := run[..|run| - 1];
      && AlwaysKeepsUp(db, first, rest)
      && KeepsUp(DbAfter(db, rest), SavedAfter(first, rest), run[|run| - 1].now)
  }

  lemma {:induction false} RunCompared(db: Db, prefix: string, first: Snapshot, run: seq<Period>)
    requires WatchRun(db, prefix, first, run)
    ensures Valid(DbAfter(db, run)) && Lists(Items(SavedAfter(first, run)), DbAfter(db, run), prefix)
    decreases |run|
  {
    if run != [] {
      var rest := run[..|run| - 1];
      RunCompared(db, prefix, first, rest);
      OldIndexUntouched(DbAfter(db, rest), run[|run| - 1].changes);
    }
  }

  /** Over a whole run, nil listings included, the mirror is right after every period exactly
      when the watch kept up in every period. */
  lemma {:induction false} MirrorOverRuns(db: Db, prefix: string, first: Snapshot, run: seq<Period>)
    requires WatchRun(db, prefix, first, run)
    ensures MirrorAlwaysRight(prefix, first, run) <==> AlwaysKeepsUp(db, first, run)
    decreases |run|
  {
    if run != [] {
      var rest, last := run[..|run| - 1], run[|run| - 1];
      MirrorOverRuns(db, prefix, first, rest);
      RunCompared(db, prefix, first, rest);
      MirrorExact(DbAfter(db, rest), last.changes, prefix, SavedAfter(first, rest), last.now);
    }
  }

  /** In every period of every run, a key whose last write lies in the period is announced
      with its current value exactly if the saved snapshot is not nil and the key is not fresh
      or stands behind the saved length. */
  lemma UpdatesAnnouncedOverRuns(db: Db, prefix: string, first: Snapshot, run: seq<Period>, i: nat)
    requires WatchRun(db, prefix, first, run) && run != []
    requires i < |Items(run[|run| - 1].now)|
    requires Items(run[|run| - 1].now)[i].modified > DbAfter(db, run[..|run| - 1]).index
    ensures var saved, p := SavedAfter(first, run[..|run| - 1]), Items(run[|run| - 1].now)[i];
            Put(p.key, p.value) in LastEvents(prefix, first, run)
            <==> !saved.Nil? && (i >= |saved.items| || p.modified != p.created)
  {
    var rest, last := run[..|run| - 1], run[|run| - 1];
    RunCompared(db, prefix, first, rest);
    UpdatesAnnounced(DbAfter(db, rest), last.changes, prefix, SavedAfter(first, rest), last.now, i);
  }

  const ONE_KEY := Db(map["a" := Rec("1", 1, 1)], 1)
  const FIRST := Pairs([Pair("a", "1", 1, 1)])
  const BACK := [Pair("a", "2", 3, 3)]

  /** A prefix loses its only key, of which `nothing` is the listing, and gets it back. */
  function GoneAndBack(nothing: Snapshot): seq<Period> {
    [Period([Remove("a")], nothing), Period([Set("a", "2")], Pairs(BACK))]
  }

  lemma GoneAndBackDb(nothing: Snapshot)
    ensures var run := GoneAndBack(nothing);
            DbAfter(ONE_KEY, run[..1]) == Db(map[], 2) && DbAfter(ONE_KEY, run) == Db(map["a" := Rec("2", 3, 3)], 3)
  {
    assert [Remove("a")][..0] == [] && [Set("a", "2")][..0] == [];
    var run := GoneAndBack(nothing);
    assert run[..1][..0] == [];
  }

  lemma GoneAndBackIsRun(nothing: Snapshot)
    requires Items(nothing) == []
    ensures WatchRun(ONE_KEY, "a", FIRST, GoneAndBack(nothing))
  {
    var run := GoneAndBack(nothing);
    GoneAndBackDb(nothing);
    assert run[..1][..0] == [];
    assert Lists(Items(FIRST), ONE_KEY, "a") by { assert Binds(Items(FIRST), FIRST.items[0].key); }
    assert Lists(BACK, DbAfter(ONE_KEY, run), "a") by { assert Binds(BACK, BACK[0].key); }
    assert WatchRun(ONE_KEY, "a", FIRST, []) && WatchRun(ONE_KEY, "a", FIRST, run[..1]);
  }

  /** Handed over as nil, the empty listing in between swallows the return, and the mirror keeps
      the old value; handed over as an empty list, it does not. */
  lemma NilSwallowsAKey(nothing: Snapshot)
    requires Items(nothing) == []
    ensures var run := GoneAndBack(nothing);
            && WatchRun(ONE_KEY, "a", FIRST, run)
            && LastEvents("a", FIRST, run) == (if nothing.Nil? then [] else [Put("a", "2")])
            && MirrorAfter("a", FIRST, run) == map["a" := if nothing.Nil? then "1" else "2"]
  {
    GoneAndBackIsRun(nothing);
    var run := GoneAndBack(nothing);
    assert run[..1][..0] == [];
    assert SavedAfter(FIRST, run[..1]) == nothing;
    assert LastEvents("a", FIRST, run[..1]) == [];
    assert FIRST.items[..0] == [];
    assert MirrorAfter("a", FIRST, run[..1]) == map["a" := "1"];
    assert Puts(BACK, [], 1) == [Put("a", "2")];
    assert [Put("a", "2")][..0] == [];
  }

  /** Nothing is removed, and the list grows only at its end; after a nil listing it stays
      empty. */
  predicate GrowsAtTheEnd(saved: Snapshot, p: Period) {
    && (forall c | c in p.changes :: c.Set?)
    && |Items(saved)| <= |Items(p.now)|
    && (forall i | 0 <= i < |Items(saved)| :: Items(p.now)[i].key == Items(saved)[i].key)
    && (saved.Nil? ==> Items(p.now) == [])
  }

  /** A key list that grows only at its end can be followed. */
  lemma GrowthAtTheEndIsFollowed(db: Db, prefix: string, saved: Snapshot, p: Period)
    requires Compared(db, p.changes, prefix, saved, p.now) && GrowsAtTheEnd(saved, p)
    ensures KeepsUp(db, saved, p.now)
  {
    OldIndexUntouched(db, p.changes);
    var before, now := Items(saved), Items(p.now);
    forall i | 0 <= i < |before| ensures Binds(now, before[i].key) {
      assert now[i].key == before[i].key;
    }
    forall i | 0 <= i < |now| && i < |before| ensures !Fresh(now[i], db.index) {
      assert now[i].key == before[i].key && before[i].key in db.recs;
    }
  }

  predicate AlwaysGrows(first: Snapshot, run: seq<Period>)
    decreases |run|
  {
    run != [] ==>
      var rest := run[..|run| - 1];
      AlwaysGrows(first, rest) && GrowsAtTheEnd(SavedAfter(first, rest), run[|run| - 1])
  }

  lemma {:induction false} GrowthKeepsUp(db: Db, prefix: string, first: Snapshot, run: seq<Period>)
    requires WatchRun(db, prefix, first, run) && AlwaysGrows(first, run)
    ensures AlwaysKeepsUp(db, first, run)
    decreases |run|
  {
    if run != [] {
      var rest, last := run[..|run| - 1], run[|run| - 1];
      GrowthKeepsUp(db, prefix, first, rest);
      RunCompared(db, prefix, first, rest);
      GrowthAtTheEndIsFollowed(DbAfter(db, rest), prefix, SavedAfter(first, rest), last);
    }
  }

  /** So over a run without removals whose lists grow only at their ends, the mirror is right
      after every period. */
  lemma GrowthIsMirrored(db: Db, prefix: string, first: Snapshot, run: seq<Period>)
    requires WatchRun(db, prefix, first, run) && AlwaysGrows(first, run)
    ensures MirrorAlwaysRight(prefix, first, run)
  {
    GrowthKeepsUp(db, prefix, first, run);
    MirrorOverRuns(db, prefix, first, run);
  }
}
