/** Retrying with capped exponential backoff (consul/consul_util/consul_util.go). */
module Retry {
  import opened Text
  import opened Wrappers

  /** What one call of `try` answers. */
  datatype Attempt<E> = Attempt(success: bool, err: E)

  const RETRIES := 100
  const BASE_WAIT := 1   // milliseconds
  const MAX_WAIT := 100
  const SUCCESS_PAUSE := 25

  function Pow2(i: nat): nat {
    if i == 0 then 1 else 2 * Pow2(i - 1)
  }

  /** The wait after the failed try number `i`. */
  function Wait(i: nat): nat {
    if Pow2(i) > MAX_WAIT then MAX_WAIT else Pow2(i)
  }

  /** All the waiting of `n` failed tries. */
  function Waited(n: nat): nat {
    if n == 0 then 0 else Waited(n - 1) + Wait(n - 1)
  }

  lemma {:induction false} Pow2Grows(i: nat)
    ensures Pow2(i) >= 1 && (i >= 7 ==> Pow2(i) >= 128)
  {
    if i > 0 { Pow2Grows(i - 1); }
    assert Pow2(1) == 2 && Pow2(2) == 4 && Pow2(3) == 8;
    assert Pow2(4) == 16 && Pow2(5) == 32 && Pow2(6) == 64 && Pow2(7) == 128;
  }

  /** Seven doublings, then a hundred milliseconds each time. */
  lemma {:induction false} WaitedClosedForm(n: nat)
    ensures Waited(n) == if n <= 7 then Pow2(n) - 1 else 127 + 100 * (n - 7)
  {
    Pow2Grows(n);
    if n > 0 {
      WaitedClosedForm(n - 1);
      Pow2Grows(n - 1);
      assert Pow2(6) == 64 && Pow2(7) == 128 by {
        assert Pow2(1) == 2 && Pow2(2) == 4 && Pow2(3) == 8 && Pow2(4) == 16 && Pow2(5) == 32;
      }
      if n <= 7 { PowersUpTo(n - 1); }
    }
  }

  lemma {:induction false} PowersUpTo(i: nat)
    requires i <= 6
    ensures Pow2(i) <= 64
  {
    assert Pow2(1) == 2 && Pow2(2) == 4 && Pow2(3) == 8 && Pow2(4) == 16 && Pow2(5) == 32 && Pow2(6) == 64;
  }

  ghost predicate Succeeds<E>(attempt: nat -> Attempt<E>, j: nat) {
    attempt(j).success
  }

  /** The tries made, the milliseconds slept, and the error handed to `fail` if that was called:
      the first success stops the retries and never fails; a hundred failures sleep 9427 ms. */
  method WaitForResult<E>(attempt: nat -> Attempt<E>, noError: E) returns (tries: nat, slept: nat, failed: Option<E>)
    ensures 1 <= tries <= RETRIES
    ensures forall i | 0 <= i < tries - 1 :: !Succeeds(attempt, i)
    ensures failed.None? <==> Succeeds(attempt, tries - 1)
    ensures failed.None? ==> slept == Waited(tries - 1) + 25
    ensures failed.Some? ==> tries == RETRIES && slept == 9427 && failed.value == attempt(RETRIES - 1).err
  {
    var err := noError;
    var wait := BASE_WAIT;
    var retries := RETRIES;
    tries, slept := 0, 0;
    while retries > 0
      invariant 0 <= retries <= RETRIES && tries == RETRIES - retries
      invariant forall i | 0 <= i < tries :: !Succeeds(attempt, i)
      invariant wait == Wait(tries) && slept == Waited(tries)
      invariant tries > 0 ==> err == attempt(tries - 1).err
    {
      var answer := attempt(tries);
      tries, err := tries + 1, answer.err;
      if answer.success {
        slept := slept + SUCCESS_PAUSE;
        return tries, slept, None;
      }
      slept := slept + wait;
      Pow2Grows(tries);
      wait := wait * 2;
      if wait > MAX_WAIT {
        wait := MAX_WAIT;
      }
      retries := retries - 1;
    }
    WaitedClosedForm(RETRIES);
    failed := Some(err);
  }

  // ---------- looking a service up by its id ----------

  datatype Service = Service(id: string, name: string, address: string, port: nat)

  /** The agent's table as one call sees it: Go ranges over the map in any order. */
  type Table = seq<(string, Service)>

  ghost predicate HasId(fold: char -> char, table: Table, id: string) {
    exists i :: 0 <= i < |table| && EqualFold(fold, table[i].0, id)
  }

  /** The first row, in the order of the range, whose id matches. */
  function Find(fold: char -> char, table: Table, id: string): Option<Service> {
    if table == [] then None
    else if EqualFold(fold, table[0].0, id) then Some(table[0].1)
    else Find(fold, table[1..], id)
  }

  lemma {:induction false} FindFinds(fold: char -> char, table: Table, id: string)
    ensures Find(fold, table, id).Some? <==> HasId(fold, table, id)
    ensures Find(fold, table, id).Some? ==>
              exists i ::
                0 <= i < |table| && EqualFold(fold, table[i].0, id) && Find(fold, table, id).value == table[i].1
    decreases |table|
  {
    if table != [] {
      FindFinds(fold, table[1..], id);
      if i :| 0 <= i < |table| && EqualFold(fold, table[i].0, id) {
        if i > 0 { assert table[1..][i - 1] == table[i]; }
      }
      var rest := table[1..];
      if i :| 0 <= i < |rest| && EqualFold(fold, rest[i].0, id) && Find(fold, rest, id) == Some(rest[i].1) {
        assert table[i + 1] == table[1..][i];
      }
    }
  }

  /** The folding merges no id of the table with `id`. */
  ghost predicate TellsIds(fold: char -> char, table: Table, id: string) {
    forall i | 0 <= i < |table| :: TellsApart(fold, table[i].0, id)
  }

  /** Then a look-up finds that very id or nothing. */
  lemma FindExact(fold: char -> char, table: Table, id: string)
    requires TellsIds(fold, table, id)
    ensures Find(fold, table, id).Some? <==> exists i :: 0 <= i < |table| && table[i].0 == id
    ensures Find(fold, table, id).Some? ==> (id, Find(fold, table, id).value) in table
  {
    FindFinds(fold, table, id);
    forall i | 0 <= i < |table| ensures EqualFold(fold, table[i].0, id) <==> table[i].0 == id {
      EqualFoldExact(fold, table[i].0, id);
    }
    if Find(fold, table, id).Some? {
      var i :| 0 <= i < |table| && EqualFold(fold, table[i].0, id) && Find(fold, table, id).value == table[i].1;
      assert table[i] == (id, Find(fold, table, id).value);
    }
  }

  /** One try: an agent that does not answer counts as a failure. */
  function Lookup(fold: char -> char, answer: Option<Table>, id: string): Attempt<string> {
    if answer.None? then Attempt(false, "no answer")
    else if Find(fold, answer.value, id).Some? then Attempt(true, "")
    else Attempt(false, "not found")
  }

  /** The try number `i` meets a matching id. */
  ghost predicate Meets(fold: char -> char, answers: nat -> Option<Table>, id: string, i: nat) {
    answers(i).Some? && HasId(fold, answers(i).value, id)
  }

  ghost predicate Holds(answers: nat -> Option<Table>, i: nat, id: string, service: Service) {
    answers(i).Some? && (id, service) in answers(i).value
  }

  /** `answers` gives the agent's answer to each try. A record comes back exactly when one of
      the hundred tries meets a matching id, and it is what the first such try found; the
      error is nil in every case. Where the folding merges nothing, some answer holds it under
      that very id. */
  method QueryServiceByID(fold: char -> char, answers: nat -> Option<Table>, id: string) returns (res: Option<Service>)
    ensures res.Some? <==> exists i: nat :: i < RETRIES && Meets(fold, answers, id, i)
    ensures res.Some? ==>
              exists i: nat :: i < RETRIES && Meets(fold, answers, id, i)
                               && (forall j: nat | j < i :: !Meets(fold, answers, id, j))
                               && res == Find(fold, answers(i).value, id)
    ensures res.Some? && (forall i: nat | answers(i).Some? :: TellsIds(fold, answers(i).value, id)) ==>
              exists i: nat :: i < RETRIES && Holds(answers, i, id, res.value)
  {
    var attempt := (i: nat) => Lookup(fold, answers(i), id);
    var tries, _, failed := WaitForResult(attempt, "");
    forall i: nat ensures Succeeds(attempt, i) <==> Meets(fold, answers, id, i) {
      if answers(i).Some? { FindFinds(fold, answers(i).value, id); }
    }
    res := None;
    if failed.None? {
      assert Meets(fold, answers, id, tries - 1);
      res := Find(fold, answers(tries - 1).value, id);
      if forall i: nat | answers(i).Some? :: TellsIds(fold, answers(i).value, id) {
        FindExact(fold, answers(tries - 1).value, id);
        assert Holds(answers, tries - 1, id, res.value);
      }
    }
  }
}
