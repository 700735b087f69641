/** Consul service registration and deregistration against one agent (consul/core.go:582-667,
    886-976). */
module Agent {
  import opened Text
  import opened ServiceId
  import opened Retry
  import opened Wrappers

  type Services = map<string, Service>

  /** The agent's own table and its answers while it is up: each listing names every service
      once, in any order. */
  ghost predicate ListingOf(table: Table, services: Services) {
    && (forall i | 0 <= i < |table| :: table[i].0 in services && services[table[i].0] == table[i].1)
    && (forall id | id in services :: exists i :: 0 <= i < |table| && table[i].0 == id)
    && (forall i, j | 0 <= i < j < |table| :: table[i].0 != table[j].0)
  }

  /** A service is filed under its own id. */
  ghost predicate Filed(services: Services) {
    forall id | id in services :: services[id].id == id
  }

  ghost predicate Lists(fold: char -> char, services: Services, id: string) {
    exists k :: k in services && EqualFold(fold, k, id)
  }

  lemma ListingHas(fold: char -> char, table: Table, services: Services, id: string)
    requires ListingOf(table, services)
    ensures HasId(fold, table, id) <==> Lists(fold, services, id)
  {
  }

  /** Where the folding merges no listed id with `id`, that very id is listed or none. */
  lemma ListsExact(fold: char -> char, services: Services, id: string)
    requires forall k | k in services :: TellsApart(fold, k, id)
    ensures Lists(fold, services, id) <==> id in services
  {
    forall k | k in services ensures EqualFold(fold, k, id) <==> k == id { EqualFoldExact(fold, k, id); }
  }

  // ---------- registration ----------

  /** The registrations at the agent and the heartbeat routines started, by service id. */
  datatype Registrations = Registrations(services: Services, routines: seq<string>)

  lemma AnswersTell(fold: char -> char, answers: nat -> Option<Table>, services: Services, id: string)
    requires forall i: nat | answers(i).Some? :: ListingOf(answers(i).value, services)
    ensures (exists i: nat :: i < RETRIES && Meets(fold, answers, id, i)) ==> Lists(fold, services, id)
    ensures (exists i: nat :: i < RETRIES && answers(i).Some?) && Lists(fold, services, id) ==>
              exists i: nat :: i < RETRIES && Meets(fold, answers, id, i)
  {
    forall i: nat | answers(i).Some? ensures Meets(fold, answers, id, i) <==> Lists(fold, services, id) {
      ListingHas(fold, answers(i).value, services, id);
    }
  }

  /** Where the folding merges nothing, an answering agent's look-up meets just the listed ids. */
  lemma MetExact(fold: char -> char, answers: nat -> Option<Table>, services: Services, id: string)
    requires forall i: nat | answers(i).Some? :: ListingOf(answers(i).value, services)
    ensures (exists i: nat :: i < RETRIES && answers(i).Some?)
            && (forall k | k in services :: TellsApart(fold, k, id)) ==>
              ((exists i: nat :: i < RETRIES && Meets(fold, answers, id, i)) <==> id in services)
  {
    AnswersTell(fold, answers, services, id);
    if forall k | k in services :: TellsApart(fold, k, id) { ListsExact(fold, services, id); }
  }

  lemma FoundHasId(fold: char -> char, answers: nat -> Option<Table>, services: Services, id: string, found: Service)
    requires Filed(services) && forall i: nat | answers(i).Some? :: ListingOf(answers(i).value, services)
    requires exists i: nat ::
               i < RETRIES && Meets(fold, answers, id, i) && Find(fold, answers(i).value, id) == Some(found)
    ensures EqualFold(fold, found.id, id)
  {
    var i: nat :| i < RETRIES && Meets(fold, answers, id, i) && Find(fold, answers(i).value, id) == Some(found);
    FindFinds(fold, answers(i).value, id);
  }

  /** The client of one agent. A faulty one may refuse any request; a refused request changes
      nothing. */
  class AgentClient {
    var services: Services
    const faulty: bool

    constructor (faulty: bool)
      ensures services == map[] && this.faulty == faulty
    {
      services, this.faulty := map[], faulty;
    }

    method ServiceRegister(id: string, service: Service) returns (ok: bool)
      modifies this
      ensures !faulty ==> ok
      ensures services == if ok then old(services)[id := service] else old(services)
    {
      var refused: bool := *;
      ok := !(faulty && refused);
      if ok { services := services[id := service]; }
    }

    /** The TTL update of a service's check, which is known by the service's exact id. */
    method UpdateTTL(id: string) returns (ok: bool)
      ensures !faulty ==> ok == (id in services)
      ensures ok ==> id in services
    {
      var refused: bool := *;
      ok := id in services && !(faulty && refused);
    }

    method ServiceDeregister(id: string) returns (ok: bool)
      modifies this
      ensures !faulty ==> ok
      ensures services == if ok then old(services) - {id} else old(services)
    {
      var refused: bool := *;
      ok := !(faulty && refused);
      if ok { services := services - {id}; }
    }
  }

  /** How a deregistration ends: well, without an agent to ask, or with the process. */
  datatype Ending = Finished | NoClient | ProcessEnded

  class ConsulRegistrar {
    const client: AgentClient
    var routines: seq<string>  // one entry per heartbeat routine
    var serviceID: string

    constructor (client: AgentClient)
      ensures this.client == client && routines == [] && serviceID == ""
    {
      this.client, routines, serviceID := client, [], "";
    }

    /** `answers` are the agent's answers to the look-up. An id that the agent is found to
        list is left alone; otherwise it is registered and gets a heartbeat routine. Not alive
        when the agent refuses the registration, which ends the process. Where the folding
        merges no listed id with it, that very id decides. */
    method Register(fold: char -> char, answers: nat -> Option<Table>, service: string, id: string, ip: IPv4, port: nat)
      returns (alive: bool)
      requires Filed(client.services)
      requires forall i: nat | answers(i).Some? :: ListingOf(answers(i).value, client.services)
      modifies this, client
      ensures Filed(client.services)
      ensures !client.faulty ==> alive
      ensures var id' := EffectiveId(service, id, ip, port);
              var met := exists i: nat :: i < RETRIES && Meets(fold, answers, id', i);
              && (met ==> alive)
              && (if met || !alive
                  then && client.services == old(client.services)
                       && routines == old(routines) && serviceID == old(serviceID)
                  else
                    && client.services == old(client.services)[id' := Service(id', service, IpText(ip), port)]
                    && routines == old(routines) + [id']
                    && serviceID == if |old(serviceID)| == 0 then id' else old(serviceID))
      ensures alive && (exists i: nat :: i < RETRIES && answers(i).Some?) ==>
                var id' := EffectiveId(service, id, ip, port);
                Registrations(client.services, routines) ==
                AfterEvent(fold, Registrations(old(client.services), old(routines)),
                           Call(id', Service(id', service, IpText(ip), port)))
      ensures var id' := EffectiveId(service, id, ip, port);
              alive && (exists i: nat :: i < RETRIES && answers(i).Some?)
              && (forall k | k in old(client.services) :: TellsApart(fold, k, id')) ==>
                && id' in client.services
                && (routines == old(routines) <==> id' in old(client.services))
    {
      var id' := id;
      if |id| == 0 {
        id' := service + "-" + DotsToDashes(IpText(ip)) + "-" + Decimal(port);
      }
      var agentService := QueryServiceByID(fold, answers, id');
      AnswersTell(fold, answers, client.services, id');
      MetExact(fold, answers, client.services, id');
      if agentService.Some? {
        FoundHasId(fold, answers, client.services, id', agentService.value);
        if EqualFold(fold, agentService.value.id, id') {
          return true;
        }
      }
      alive := client.ServiceRegister(id', Service(id', service, IpText(ip), port));
      if !alive { return; }
      if |serviceID| == 0 {
        serviceID := id';
      }
      routines := routines + [id'];
    }

    /** A tick of the routine that was started for `id`: its update, and when that fails,
        another registration. On a sound agent nothing happens while the id is listed; after a
        deregistration it is listed again, with a second routine. */
    method Tick(fold: char -> char, answers: nat -> Option<Table>, service: string, id: string, ip: IPv4, port: nat)
      returns (alive: bool)
      requires id != "" && id in routines && Filed(client.services)
      requires forall i: nat | answers(i).Some? :: ListingOf(answers(i).value, client.services)
      modifies this, client
      ensures Filed(client.services) && (!client.faulty ==> alive)
      ensures !client.faulty && id in old(client.services) ==>
                client.services == old(client.services) && routines == old(routines)
      ensures !client.faulty && (exists i: nat :: i < RETRIES && answers(i).Some?) ==>
                Registrations(client.services, routines) ==
                AfterEvent(fold, Registrations(old(client.services), old(routines)),
                           Call(id, Service(id, service, IpText(ip), port)))
    {
      var ok := client.UpdateTTL(id);
      alive := true;
      if !ok {
        alive := Register(fold, answers, service, id, ip, port);
      } else {
        assert EqualFold(fold, id, id);
      }
    }

    /** Without an address or port every instance in the catalog goes; otherwise the agent's
        first service of that name does, whatever `id`, `ip` and `port` say. `reached` tells
        whether the search of the cluster comes to call the operation; it is made when all
        instances are to go and when the agent refuses the direct way. */
    method Deregister(
        fold: char -> char, answers: nat -> Option<Table>, reached: bool,
        rows: Option<seq<CatalogService>>, health: Option<seq<ServiceEntry>>,
        service: string, id: string, ip: IPv4, port: nat) returns (ending: Ending)
      requires forall i: nat | answers(i).Some? :: ListingOf(answers(i).value, client.services)
      modifies client
      ensures forall k | k in client.services ::
                k in old(client.services) && client.services[k] == old(client.services)[k]
      ensures ending.NoClient? ==> !reached && client.services == old(client.services)
      ensures ending.ProcessEnded? && (IsUnspecified(ip) || port == 0) ==>
                client.faulty || rows.None? || health.None?
      ensures (IsUnspecified(ip) || port == 0) && !reached ==> ending.NoClient?
      ensures (IsUnspecified(ip) || port == 0) && ending.Finished? ==>
                && rows.Some?
                && forall k :: k in client.services
                               <==> k in old(client.services) && forall s | s in rows.value :: s.id != k
      ensures !(IsUnspecified(ip) || port == 0)
              && (forall i: nat | i < RETRIES :: Named(fold, answers(i), service).None?) ==>
                ending.ProcessEnded? && client.services == old(client.services)
      ensures !(IsUnspecified(ip) || port == 0) && (exists i: nat :: FirstNaming(fold, answers, service, i)) ==>
                && (!client.faulty ==> ending.Finished?)
                && (ending.Finished? && (!client.faulty || !reached) ==>
                      TookFirst(fold, answers, service, old(client.services), client.services))
                && (ending.Finished? ==>
                      || TookFirst(fold, answers, service, old(client.services), client.services)
                      || (rows.Some? && health.Some?
                          && SparedOnly(fold, old(client.services), rows.value, health.value, false, IpText(ip), port,
                                        client.services)))
      ensures ending.ProcessEnded? && client.services != old(client.services) ==>
                && rows.Some? && health.Some?
                && exists n ::
                     && 0 <= n < |rows.value|
                     && SparedOnly(fold, old(client.services), rows.value[..n], health.value,
                                   IsUnspecified(ip) || port == 0, IpText(ip), port, client.services)
    {
      var all := IsUnspecified(ip) || port == 0;
      if !all {
        var fast := DeregisterServiceFast(fold, client, answers, service);
        if fast.NotFound? { return ProcessEnded; }
        if fast.Removed? { return Finished; }
      }
      if !reached { return NoClient; }
      var alive := DeregisterService(fold, client, rows, health, all, IpText(ip), port);
      return if alive then Finished else ProcessEnded;
    }
  }

  // ---------- registration over runs ----------

  /** A call of Register, by the application or by a routine whose update failed, or the agent
      dropping a service. */
  datatype Event = Call(id: string, service: Service) | Forget(id: string)

  ghost function AfterEvent(fold: char -> char, r: Registrations, e: Event): Registrations {
    match e
    case Call(id, service) =>
      if Lists(fold, r.services, id) then r else Registrations(r.services[id := service], r.routines + [id])
    case Forget(id) => r.(services := r.services - {id})
  }

  const NOTHING := Registrations(map[], [])

  /** A run of events from an empty table, newest event last. */
  ghost function AfterRun(fold: char -> char, events: seq<Event>): Registrations {
    if events == [] then NOTHING
    else AfterEvent(fold, AfterRun(fold, events[..|events| - 1]), events[|events| - 1])
  }

  /** The routines started for an id, up to case. */
  function RoutinesFor(fold: char -> char, routines: seq<string>, id: string): nat {
    if routines == [] then 0
    else
      RoutinesFor(fold, routines[..|routines| - 1], id) +
      if EqualFold(fold, routines[|routines| - 1], id) then 1 else 0
  }

  /** The calls for an id made while the agent did not list it. */
  ghost function CallsWhileUnlisted(fold: char -> char, events: seq<Event>, id: string): nat {
    if events == [] then 0
    else
      var rest, e := events[..|events| - 1], events[|events| - 1];
      CallsWhileUnlisted(fold, rest, id) +
      if e.Call? && EqualFold(fold, e.id, id) && !Lists(fold, AfterRun(fold, rest).services, id) then 1 else 0
  }

  /** How often the agent dropped a service of that id. */
  ghost function Drops(fold: char -> char, events: seq<Event>, id: string): nat {
    if events == [] then 0
    else
      var rest, e := events[..|events| - 1], events[|events| - 1];
      Drops(fold, rest, id) +
      if e.Forget? && EqualFold(fold, e.id, id) && e.id in AfterRun(fold, rest).services then 1 else 0
  }

  ghost predicate OnePerId(fold: char -> char, services: Services) {
    forall k, k' | k in services && k' in services && EqualFold(fold, k, k') :: k == k'
  }

  lemma SameClass(fold: char -> char, services: Services, a: string, b: string)
    requires EqualFold(fold, a, b)
    ensures Lists(fold, services, a) <==> Lists(fold, services, b)
  {
    if k :| k in services && EqualFold(fold, k, a) { assert EqualFold(fold, k, b); }
    if k :| k in services && EqualFold(fold, k, b) { assert EqualFold(fold, k, a); }
  }

  lemma OneMoreRoutine(fold: char -> char, routines: seq<string>, new': string, id: string)
    ensures RoutinesFor(fold, routines + [new'], id) ==
            RoutinesFor(fold, routines, id) + if EqualFold(fold, new', id) then 1 else 0
  {
    assert (routines + [new'])[..|routines|] == routines;
  }

  /** What one event does to the count of an id's routines and to its listing. */
  lemma EventCounts(fold: char -> char, r: Registrations, e: Event, id: string)
    requires OnePerId(fold, r.services)
    ensures var r' := AfterEvent(fold, r, e);
            var due := e.Call? && EqualFold(fold, e.id, id) && !Lists(fold, r.services, id);
            var dropped := e.Forget? && EqualFold(fold, e.id, id) && e.id in r.services;
            && OnePerId(fold, r'.services)
            && RoutinesFor(fold, r'.routines, id) == RoutinesFor(fold, r.routines, id) + (if due then 1 else 0)
            && (Lists(fold, r'.services, id) <==> due || (Lists(fold, r.services, id) && !dropped))
  {
    var r' := AfterEvent(fold, r, e);
    if EqualFold(fold, e.id, id) { SameClass(fold, r.services, e.id, id); }
    match e
    case Call(new', service) =>
      if !Lists(fold, r.services, new') {
        OneMoreRoutine(fold, r.routines, new', id);
        assert forall k | k in r.services :: !EqualFold(fold, k, new') && !EqualFold(fold, new', k);
        assert forall k | k in r'.services :: k in r.services || k == new';
        if k :| k in r.services && EqualFold(fold, k, id) { assert k in r'.services; }
        if EqualFold(fold, new', id) { assert new' in r'.services; }
      }
    case Forget(gone) =>
      if k :| k in r.services && EqualFold(fold, k, id) {
        if k != gone { assert k in r'.services; }
        if k' :| k' in r'.services && EqualFold(fold, k', id) {
          assert EqualFold(fold, k', k);
        }
        if gone in r.services && EqualFold(fold, gone, id) { assert EqualFold(fold, gone, k); }
      }
  }

  /** Over any run the routines for an id are exactly the calls made while it was unlisted,
      and one for each time the agent dropped it, besides the one for its present listing. */
  lemma {:induction false} RoutineCount(fold: char -> char, events: seq<Event>, id: string)
    ensures var r := AfterRun(fold, events);
            && OnePerId(fold, r.services)
            && RoutinesFor(fold, r.routines, id) == CallsWhileUnlisted(fold, events, id)
            && RoutinesFor(fold, r.routines, id) ==
               Drops(fold, events, id) + if Lists(fold, r.services, id) then 1 else 0
    decreases |events|
  {
    if events != [] {
      var rest := events[..|events| - 1];
      RoutineCount(fold, rest, id);
      EventCounts(fold, AfterRun(fold, rest), events[|events| - 1], id);
    }
  }

  /** While the agent forgets nothing, any run of calls leaves exactly one registration and one
      routine for every id called for, and none for others. */
  lemma {:induction false} RegistrationIdempotent(fold: char -> char, events: seq<Event>, id: string)
    requires forall e | e in events :: e.Call?
    ensures var r := AfterRun(fold, events);
            var called := exists e :: e in events && EqualFold(fold, e.id, id);
            && OnePerId(fold, r.services) && (Lists(fold, r.services, id) <==> called)
            && RoutinesFor(fold, r.routines, id) == if called then 1 else 0
    decreases |events|
  {
    RoutineCount(fold, events, id);
    if events != [] {
      var rest, last := events[..|events| - 1], events[|events| - 1];
      RegistrationIdempotent(fold, rest, id);
      RoutineCount(fold, rest, id);
      EventCounts(fold, AfterRun(fold, rest), last, id);
      assert last in events && forall e | e in rest :: e in events;
      assert forall e | e in events :: e in rest || e == last;
    }
  }

  ghost predicate CalledFor(fold: char -> char, events: seq<Event>, id: string) {
    exists e :: e in events && e.Call? && EqualFold(fold, e.id, id)
  }

  lemma CalledForMore(fold: char -> char, rest: seq<Event>, last: Event, id: string)
    ensures CalledFor(fold, rest + [last], id) <==>
              CalledFor(fold, rest, id) || (last.Call? && EqualFold(fold, last.id, id))
  {
    if e :| e in rest && e.Call? && EqualFold(fold, e.id, id) { assert e in rest + [last]; }
    assert last in rest + [last];
  }

  lemma OneMoreEvent(fold: char -> char, events: seq<Event>, e: Event)
    ensures AfterRun(fold, events + [e]) == AfterEvent(fold, AfterRun(fold, events), e)
  {
    assert (events + [e])[..|events|] == events;
  }

  /** The id is listed, with `n` routines and one more, just if it was called for. */
  ghost predicate Lasting(fold: char -> char, r: Registrations, id: string, called: bool, n: nat) {
    && OnePerId(fold, r.services)
    && (Lists(fold, r.services, id) <==> called)
    && RoutinesFor(fold, r.routines, id) == n + if called then 1 else 0
  }

  lemma LastingStep(fold: char -> char, r: Registrations, e: Event, id: string, called: bool, n: nat)
    requires Lasting(fold, r, id, called, n) && (e.Forget? ==> !EqualFold(fold, e.id, id))
    ensures Lasting(fold, AfterEvent(fold, r, e), id, called || (e.Call? && EqualFold(fold, e.id, id)), n)
  {
    EventCounts(fold, r, e, id);
  }

  lemma Dropped(fold: char -> char, before: seq<Event>, id: string)
    requires id in AfterRun(fold, before).services
    ensures Lasting(fold, AfterRun(fold, before + [Forget(id)]), id, false,
                    RoutinesFor(fold, AfterRun(fold, before).routines, id))
  {
    RoutineCount(fold, before, id);
    OneMoreEvent(fold, before, Forget(id));
    assert EqualFold(fold, id, id);
    EventCounts(fold, AfterRun(fold, before), Forget(id), id);
  }

  lemma LastEvent(dropped: seq<Event>, after: seq<Event>)
    requires after != []
    ensures var rest, last := after[..|after| - 1], after[|after| - 1];
            && after == rest + [last] && dropped + after == (dropped + rest) + [last]
            && last in after && forall e | e in rest :: e in after
  {
  }

  /** A deregistration does not tell the routines. From then on, while nobody deregisters
      again, the id is listed and has one more routine exactly if a call for it was made: by
      the application, or by the next tick of a routine that was started for it. */
  lemma {:induction false} DeregistrationLasts(
      fold: char -> char, before: seq<Event>, id: string, after: seq<Event>)
    requires id in AfterRun(fold, before).services
    requires forall e | e in after && e.Forget? :: !EqualFold(fold, e.id, id)
    ensures Lasting(fold, AfterRun(fold, before + [Forget(id)] + after), id, CalledFor(fold, after, id),
                    RoutinesFor(fold, AfterRun(fold, before).routines, id))
    decreases |after|
  {
    var dropped := before + [Forget(id)];
    if after == [] {
      Dropped(fold, before, id);
      assert dropped + after == dropped;
    } else {
      var rest, last := after[..|after| - 1], after[|after| - 1];
      LastEvent(dropped, after);
      DeregistrationLasts(fold, before, id, rest);
      OneMoreEvent(fold, dropped + rest, last);
      CalledForMore(fold, rest, last, id);
      LastingStep(fold, AfterRun(fold, dropped + rest), last, id, CalledFor(fold, rest, id),
                  RoutinesFor(fold, AfterRun(fold, before).routines, id));
    }
  }

  // ---------- deregistering through the catalog ----------

  /** A row of the catalog and of the health answer. */
  datatype CatalogService = CatalogService(id: string, address: string, port: nat)
  datatype ServiceEntry = ServiceEntry(id: string, passing: bool)

  /** `Contains`: is there an entry with this id, up to case? */
  method Contains(fold: char -> char, s: seq<ServiceEntry>, e: CatalogService) returns (found: bool)
    ensures found <==> exists a :: a in s && EqualFold(fold, a.id, e.id)
    ensures (forall a | a in s :: TellsApart(fold, a.id, e.id)) ==> (found <==> exists a :: a in s && a.id == e.id)
  {
    forall a | a in s && TellsApart(fold, a.id, e.id) ensures EqualFold(fold, a.id, e.id) <==> a.id == e.id {
      EqualFoldExact(fold, a.id, e.id);
    }
    for i := 0 to |s|
      invariant forall j | 0 <= j < i :: !EqualFold(fold, s[j].id, e.id)
    {
      if EqualFold(fold, s[i].id, e.id) { return true; }
    }
    return false;
  }

  /** What a deregistration spares: not `all`, listed as passing, and elsewhere. */
  ghost predicate Spared(
      fold: char -> char, entries: seq<ServiceEntry>, all: bool, address: string, port: nat, s: CatalogService) {
    && !all
    && (exists a :: a in entries && a.passing && EqualFold(fold, a.id, s.id))
    && !(EqualFold(fold, s.address, address) && s.port == port)
  }

  /** `rows` and `health` are the answers of the catalog and the health query. Not alive when a
      query fails, with nothing done, or when the agent refuses to drop a service, with the rows
      before done: both end the process. */
  method DeregisterService(
      fold: char -> char, cc: AgentClient, rows: Option<seq<CatalogService>>, health: Option<seq<ServiceEntry>>,
      all: bool, address: string, port: nat) returns (alive: bool)
    modifies cc
    ensures !cc.faulty && rows.Some? && health.Some? ==> alive
    ensures rows.None? || health.None? ==> !alive && cc.services == old(cc.services)
    ensures alive ==>
              && rows.Some? && health.Some?
              && SparedOnly(fold, old(cc.services), rows.value, health.value, all, address, port, cc.services)
    ensures !alive && rows.Some? && health.Some? ==> exists n ::
              && 0 <= n < |rows.value|
              && SparedOnly(fold, old(cc.services), rows.value[..n], health.value, all, address, port, cc.services)
  {
    if rows.None? { return false; }
    if health.None? { return false; }
    var catalog, entries := rows.value, health.value;
    var passing: seq<ServiceEntry> := [];
    if !all {
      for i := 0 to |entries|
        invariant forall a :: a in passing <==> a in entries[..i] && a.passing
      {
        if entries[i].passing { passing := passing + [entries[i]]; }
      }
      assert entries[..|entries|] == entries;
    }
    for i := 0 to |catalog|
      invariant SparedOnly(fold, old(cc.services), catalog[..i], entries, all, address, port, cc.services)
    {
      var s := catalog[i];
      var del := all;
      var contained := Contains(fold, passing, s);
      if !contained { del := true; }
      if !all {
        if EqualFold(fold, s.address, address) && s.port == port { del := true; }
      }
      assert del <==> !Spared(fold, entries, all, address, port, s);
      if del {
        var ok := cc.ServiceDeregister(s.id);
        if !ok { return false; }
      }
      assert catalog[..i + 1] == catalog[..i] + [s];
    }
    assert catalog[..|catalog|] == catalog;
    return true;
  }

  /** `left` is what remains of `services` when every unspared row of the catalog goes. */
  ghost predicate SparedOnly(
      fold: char -> char, services: Services, catalog: seq<CatalogService>, entries: seq<ServiceEntry>,
      all: bool, address: string, port: nat, left: Services) {
    && (forall id :: id in left <==>
          id in services && forall s | s in catalog && s.id == id :: Spared(fold, entries, all, address, port, s))
    && (forall id | id in left :: left[id] == services[id])
  }

  /** With distinct ids, a catalogued service is left exactly when it is spared; with `all`
      none is left. */
  lemma LeftExactlySpared(
      fold: char -> char, services: Services, catalog: seq<CatalogService>, entries: seq<ServiceEntry>,
      all: bool, address: string, port: nat, left: Services, i: nat)
    requires SparedOnly(fold, services, catalog, entries, all, address, port, left)
    requires forall j, k | 0 <= j < k < |catalog| :: catalog[j].id != catalog[k].id
    requires i < |catalog| && catalog[i].id in services
    ensures catalog[i].id in left <==>
              && !all
              && (exists a :: a in entries && a.passing && EqualFold(fold, a.id, catalog[i].id))
              && !(EqualFold(fold, catalog[i].address, address) && catalog[i].port == port)
    ensures all ==> catalog[i].id !in left
  {
  }

  // ---------- deregistering at this agent ----------

  /** The service of that name that one answer of the agent puts first. */
  function Named(fold: char -> char, answer: Option<Table>, name: string): Option<string> {
    if answer.None? then None else FirstNamed(fold, answer.value, name)
  }

  /** An answer that lists a service of that name. */
  ghost predicate Bears(fold: char -> char, answer: Option<Table>, name: string) {
    answer.Some? && exists k :: 0 <= k < |answer.value| && EqualFold(fold, answer.value[k].1.name, name)
  }

  lemma NamedExact(fold: char -> char, answer: Option<Table>, name: string)
    ensures Named(fold, answer, name).Some? <==> Bears(fold, answer, name)
  {
    if answer.Some? { FirstNamedIs(fold, answer.value, name); }
  }

  ghost predicate FirstNaming(fold: char -> char, answers: nat -> Option<Table>, name: string, i: nat) {
    && i < RETRIES && Named(fold, answers(i), name).Some?
    && forall j: nat | j < i :: Named(fold, answers(j), name).None?
  }

  /** What the direct way leaves when the agent does not refuse. */
  ghost predicate TookFirst(
      fold: char -> char, answers: nat -> Option<Table>, name: string, before: Services, after: Services) {
    exists i: nat :: FirstNaming(fold, answers, name, i) && after == before - {Named(fold, answers(i), name).value}
  }

  datatype FastResult = Removed(id: string) | Refused(id: string) | NotFound

  /** The names alone decide: the first service of the range that bears the name goes, unless
      the agent refuses. Not found when a hundred tries found none, which ends the process. */
  method DeregisterServiceFast(fold: char -> char, cc: AgentClient, answers: nat -> Option<Table>, name: string)
    returns (r: FastResult)
    requires forall i: nat | answers(i).Some? :: ListingOf(answers(i).value, cc.services)
    modifies cc
    ensures !cc.faulty ==> !r.Refused?
    ensures r.NotFound? <==> forall i: nat | i < RETRIES :: Named(fold, answers(i), name).None?
    ensures r.NotFound? <==> forall i: nat | i < RETRIES :: !Bears(fold, answers(i), name)
    ensures !r.NotFound? ==>
              exists i: nat :: FirstNaming(fold, answers, name, i) && Named(fold, answers(i), name) == Some(r.id)
    ensures cc.services == if r.Removed? then old(cc.services) - {r.id} else old(cc.services)
    ensures !r.NotFound? ==> r.id in old(cc.services) && EqualFold(fold, old(cc.services)[r.id].name, name)
    ensures !r.NotFound? && (forall k | k in old(cc.services) :: TellsApart(fold, old(cc.services)[k].name, name)) ==>
              old(cc.services)[r.id].name == name
  {
    var attempt := (i: nat) => Attempt(Named(fold, answers(i), name).Some?, "not found");
    var tries, _, failed := WaitForResult(attempt, "");
    assert forall i: nat :: Succeeds(attempt, i) <==> Named(fold, answers(i), name).Some?;
    forall i: nat ensures Named(fold, answers(i), name).Some? <==> Bears(fold, answers(i), name) {
      NamedExact(fold, answers(i), name);
    }
    if failed.Some? { return NotFound; }
    assert FirstNaming(fold, answers, name, tries - 1);
    var id := Named(fold, answers(tries - 1), name).value;
    FirstNamedIs(fold, answers(tries - 1).value, name);
    if TellsApart(fold, cc.services[id].name, name) { EqualFoldExact(fold, cc.services[id].name, name); }
    var ok := cc.ServiceDeregister(id);
    return if ok then Removed(id) else Refused(id);
  }

  function FirstNamed(fold: char -> char, table: Table, name: string): Option<string> {
    if table == [] then None
    else if EqualFold(fold, table[0].1.name, name) then Some(table[0].0)
    else FirstNamed(fold, table[1..], name)
  }

  lemma {:induction false} FirstNamedIs(fold: char -> char, table: Table, name: string)
    ensures FirstNamed(fold, table, name).Some? ==>
              exists i :: 0 <= i < |table| && table[i].0 == FirstNamed(fold, table, name).value
                          && EqualFold(fold, table[i].1.name, name)
    ensures FirstNamed(fold, table, name).None? ==>
              forall i | 0 <= i < |table| :: !EqualFold(fold, table[i].1.name, name)
    decreases |table|
  {
    if table != [] && !EqualFold(fold, table[0].1.name, name) {
      FirstNamedIs(fold, table[1..], name);
      assert forall i | 1 <= i < |table| :: table[i] == table[1..][i - 1];
      if FirstNamed(fold, table, name).Some? {
        var i :| 0 <= i < |table[1..]| && table[1..][i].0 == FirstNamed(fold, table[1..], name).value
                 && EqualFold(fold, table[1..][i].1.name, name);
        assert table[i + 1] == table[1..][i];
      }
    }
  }

  /** The fast path takes away the intended instance, whatever order the agent's map is ranged
      over, exactly when no other service at the agent bears the name. */
  lemma FastRemovesTheRightOne(fold: char -> char, services: Services, name: string, id: string, listing: Table)
    requires id in services && EqualFold(fold, services[id].name, name)
    requires ListingOf(listing, services)
    ensures (forall table: Table | ListingOf(table, services) :: FirstNamed(fold, table, name) == Some(id))
            <==> (forall k | k in services && EqualFold(fold, services[k].name, name) :: k == id)
  {
    if forall k | k in services && EqualFold(fold, services[k].name, name) :: k == id {
      forall table: Table | ListingOf(table, services) ensures FirstNamed(fold, table, name) == Some(id) {
        FirstNamedIs(fold, table, name);
        var i :| 0 <= i < |table| && table[i].0 == id;
        assert table[i].1 == services[id];
      }
    } else {
      var k :| k in services && EqualFold(fold, services[k].name, name) && k != id;
      var i :| 0 <= i < |listing| && listing[i].0 == k;
      var table := listing[i..] + listing[..i];
      Rotated(listing, services, i);
      assert FirstNamed(fold, table, name) == Some(k);
    }
  }

  function Rotation(n: nat, i: nat, j: nat): (k: nat)
    requires i < n && j < n
    ensures k < n
  {
    if j < n - i then j + i else j - (n - i)
  }

  lemma RotatedAt(listing: Table, i: nat, j: nat)
    requires i < |listing| && j < |listing|
    ensures (listing[i..] + listing[..i])[j] == listing[Rotation(|listing|, i, j)]
  {
  }

  lemma Rotated(listing: Table, services: Services, i: nat)
    requires ListingOf(listing, services) && i < |listing|
    ensures ListingOf(listing[i..] + listing[..i], services)
  {
    var table, n := listing[i..] + listing[..i], |listing|;
    forall j: nat | j < n
      ensures table[j].0 in services && services[table[j].0] == table[j].1
    {
      RotatedAt(listing, i, j);
    }
    forall j: nat, k: nat | j < k < n ensures table[j].0 != table[k].0 {
      RotatedAt(listing, i, j);
      RotatedAt(listing, i, k);
      assert Rotation(n, i, j) != Rotation(n, i, k);
    }
    forall id | id in services ensures exists j :: 0 <= j < n && table[j].0 == id {
      var k :| 0 <= k < n && listing[k].0 == id;
      var j := if k >= i then k - i else k + (n - i);
      RotatedAt(listing, i, j);
      assert table[j].0 == id;
    }
  }
}
