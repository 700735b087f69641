/** The Consul key/value store (consul/core.go), and when the two backends cannot be told apart. */
module Backends {
  import opened Text
  import opened EtcdTree
  import opened EtcdRuns
  import opened Wrappers

  /** Consul's client writes no empty key and none that begins with '/'. */
  predicate Accepted(full: string) {
    full != "" && full[0] != '/'
  }

  /** What it does about a leading '/' when it reads or deletes. */
  datatype Slashes = Refused | Stripped

  /** The key or prefix that a read or a deletion reaches. */
  function Reached(slashes: Slashes, full: string): string {
    if slashes.Stripped? && full != "" && full[0] == '/' then full[1..] else full
  }

  predicate KeyAccepted(slashes: Slashes, full: string) {
    if slashes.Refused? then Accepted(full) else Reached(slashes, full) != ""
  }

  /** A prefix may be empty. */
  predicate PrefixAccepted(slashes: Slashes, full: string) {
    full == "" || full[0] != '/' || slashes.Stripped?
  }

  /** Consul's key/value side. A faulty client may refuse any request; a refused request
      changes nothing. */
  class ConsulKV {
    var kv: map<string, string>
    const slashes: Slashes
    const faulty: bool

    constructor (slashes: Slashes, faulty: bool)
      ensures kv == map[] && this.slashes == slashes && this.faulty == faulty
    {
      kv, this.slashes, this.faulty := map[], slashes, faulty;
    }

    method Get(key: string) returns (ok: bool, found: bool, value: string)
      ensures !faulty ==> ok == KeyAccepted(slashes, key)
      ensures ok ==>
                && KeyAccepted(slashes, key) && found == (Reached(slashes, key) in kv)
                && (found ==> value == kv[Reached(slashes, key)])
    {
      var refused: bool := *;
      ok, found, value := KeyAccepted(slashes, key) && !(faulty && refused), false, "";
      if ok && Reached(slashes, key) in kv { found, value := true, kv[Reached(slashes, key)]; }
    }

    method Put(key: string, value: string) returns (ok: bool)
      modifies this
      ensures !faulty ==> ok == Accepted(key)
      ensures ok ==> Accepted(key)
      ensures kv == if ok then old(kv)[key := value] else old(kv)
    {
      var refused: bool := *;
      ok := Accepted(key) && !(faulty && refused);
      if ok { kv := kv[key := value]; }
    }

    method Delete(key: string) returns (ok: bool)
      modifies this
      ensures !faulty ==> ok == KeyAccepted(slashes, key)
      ensures ok ==> KeyAccepted(slashes, key)
      ensures kv == if ok then old(kv) - {Reached(slashes, key)} else old(kv)
    {
      var refused: bool := *;
      ok := KeyAccepted(slashes, key) && !(faulty && refused);
      if ok { kv := kv - {Reached(slashes, key)}; }
    }

    method DeleteTree(prefix: string) returns (ok: bool)
      modifies this
      ensures !faulty ==> ok == PrefixAccepted(slashes, prefix)
      ensures ok ==> PrefixAccepted(slashes, prefix)
      ensures kv == if ok then WithoutPrefix(old(kv), Reached(slashes, prefix)) else old(kv)
    {
      var refused: bool := *;
      ok := PrefixAccepted(slashes, prefix) && !(faulty && refused);
      if ok { kv := WithoutPrefix(kv, Reached(slashes, prefix)); }
    }
  }

  /** On a sound client a call fails just when its key or prefix is not accepted; on a faulty
      one a failed call changes nothing and a failed Get answers "". */
  class KVStoreConsul {
    const client: ConsulKV
    var root: string

    constructor (client: ConsulKV, root: string)
      ensures this.client == client && this.root == root
    {
      this.client, this.root := client, root;
    }

    method Get(key: string) returns (value: string)
      ensures value == ConsulLookup(client.slashes, client.kv, Full(root, key)) || (client.faulty && value == "")
    {
      var full := key;
      if |root| > 0 { full := root + "/" + key; }
      var ok, found, v := client.Get(full);
      if !ok { return ""; }
      if !found { return ""; }
      return v;
    }

    /** Consul needs no directories: `buildForDirectory` is empty there. */
    method Put(key: string, value: string) returns (ok: bool)
      modifies client
      ensures !client.faulty ==> ok == Accepted(Full(root, key))
      ensures client.kv == (if ok then old(client.kv)[Full(root, key) := value] else old(client.kv))
      ensures ok || !client.faulty ==> client.kv == ConsulApply(client.slashes, old(client.kv), root, CPut(key, value))
    {
      var full := key;
      if |root| > 0 { full := root + "/" + key; }
      ok := client.Put(full, value);
    }

    method Delete(key: string) returns (ok: bool)
      modifies client
      ensures !client.faulty ==> ok == KeyAccepted(client.slashes, Full(root, key))
      ensures client.kv == (if ok then old(client.kv) - {Reached(client.slashes, Full(root, key))} else old(client.kv))
      ensures ok || !client.faulty ==> client.kv == ConsulApply(client.slashes, old(client.kv), root, CDelete(key))
    {
      var full := key;
      if |root| > 0 { full := root + "/" + key; }
      ok := client.Delete(full);
    }

    method DeletePrefix(keyPrefix: string) returns (ok: bool)
      modifies client
      ensures !client.faulty ==> ok == PrefixAccepted(client.slashes, DeletedPrefix(root, keyPrefix))
      ensures client.kv == if ok
                           then WithoutPrefix(old(client.kv), Reached(client.slashes, DeletedPrefix(root, keyPrefix)))
                           else old(client.kv)
      ensures ok || !client.faulty ==>
                client.kv == ConsulApply(client.slashes, old(client.kv), root, CDeletePrefix(keyPrefix))
    {
      var full := keyPrefix;
      if |root| > 0 {
        if |keyPrefix| == 0 { full := root; } else { full := root + "/" + keyPrefix; }
      }
      ok := client.DeleteTree(full);
    }
  }

  /** The calls both stores offer. */
  datatype Call =
    | CPut(key: string, value: string)
    | CGet(key: string)
    | CDelete(key: string)
    | CDeletePrefix(prefix: string)

  function ConsulLookup(slashes: Slashes, kv: map<string, string>, full: string): string {
    if KeyAccepted(slashes, full) && Reached(slashes, full) in kv then kv[Reached(slashes, full)] else ""
  }

  function ConsulApply(slashes: Slashes, kv: map<string, string>, root: string, c: Call): map<string, string> {
    match c
    case CPut(key, value) => if Accepted(Full(root, key)) then kv[Full(root, key) := value] else kv
    case CGet(_) => kv
    case CDelete(key) =>
      if KeyAccepted(slashes, Full(root, key)) then kv - {Reached(slashes, Full(root, key))} else kv
    case CDeletePrefix(prefix) =>
      var full := DeletedPrefix(root, prefix);
      if PrefixAccepted(slashes, full) then WithoutPrefix(kv, Reached(slashes, full)) else kv
  }

  function EtcdOp(c: Call): Op {
    match c
    case CPut(key, value) => Plain(key, value)
    case CGet(key) => Get(key)
    case CDelete(key) => Delete(key)
    case CDeletePrefix(prefix) => DeletePrefix(prefix)
  }

  /** The plain map both stores stand for; it lacks only the key without a name. */
  function PlainApply(m: map<string, string>, root: string, c: Call): map<string, string> {
    match c
    case CPut(key, value) => if Full(root, key) == "" then m else m[key := value]
    case CGet(_) => m
    case CDelete(key) => m - {key}
    case CDeletePrefix(prefix) => map k | k in m && !(prefix <= k) :: m[k]
  }

  // The answers of a run, oldest call first.

  function EtcdAnswers(kv: Kv, root: string, calls: seq<Call>): seq<string>
    decreases |calls|
  {
    if calls == [] then []
    else
      (if calls[0].CGet? then [Lookup(kv, Full(root, calls[0].key))] else []) +
      EtcdAnswers(Apply(kv, root, EtcdOp(calls[0])), root, calls[1..])
  }

  function ConsulAnswers(slashes: Slashes, kv: map<string, string>, root: string, calls: seq<Call>): seq<string>
    decreases |calls|
  {
    if calls == [] then []
    else
      (if calls[0].CGet? then [ConsulLookup(slashes, kv, Full(root, calls[0].key))] else []) +
      ConsulAnswers(slashes, ConsulApply(slashes, kv, root, calls[0]), root, calls[1..])
  }

  function PlainAnswers(m: map<string, string>, root: string, calls: seq<Call>): seq<string>
    decreases |calls|
  {
    if calls == [] then []
    else
      (if calls[0].CGet? then [if calls[0].key in m then m[calls[0].key] else ""] else []) +
      PlainAnswers(PlainApply(m, root, calls[0]), root, calls[1..])
  }

  /** Calls on keys of `keys` only; prefixes are free. */
  predicate Over(calls: seq<Call>, keys: set<string>) {
    forall c | c in calls :: c.CDeletePrefix? || c.key in keys
  }

  ghost predicate NoDirectoryAmong(keys: set<string>) {
    forall a, b | a in keys && b in keys :: !IsAncestor(a, b)
  }

  /** Consul refuses none of the keys but, as etcd does, the empty one. */
  ghost predicate NoLeadingSlash(root: string, keys: set<string>) {
    forall k | k in keys :: Full(root, k) == "" || Full(root, k)[0] != '/'
  }

  /** No deletion under a prefix with a leading '/' reaches one of the keys. */
  ghost predicate NotStripped(slashes: Slashes, root: string, keys: set<string>) {
    slashes.Stripped? && root == "" ==> forall k | k in keys :: k == ""
  }

  /** A backend's map and the plain map agree on `keys`. */
  ghost predicate Stands(value: string -> Option<string>, m: map<string, string>, root: string, keys: set<string>) {
    forall k | k in keys :: value(Full(root, k)) == if k in m then Some(m[k]) else None
  }

  function EtcdValue(kv: Kv): string -> Option<string> {
    f => if f in kv then Some(kv[f].value) else None
  }

  function ConsulValue(kv: map<string, string>): string -> Option<string> {
    f => if f in kv then Some(kv[f]) else None
  }

  lemma DeletedAlike(root: string, prefix: string, k: string)
    ensures DeletedPrefix(root, prefix) <= Full(root, k) <==> prefix <= k
  {
    FullPrefix(root, prefix, k);
  }

  /** For the keys in question Consul deletes what stands under the prefix, and no more. */
  lemma ReachedAlike(slashes: Slashes, root: string, keys: set<string>, prefix: string, k: string)
    requires NoLeadingSlash(root, keys) && NotStripped(slashes, root, keys) && k in keys && Full(root, k) != ""
    ensures var full := DeletedPrefix(root, prefix);
            PrefixAccepted(slashes, full) && Reached(slashes, full) <= Full(root, k) <==> prefix <= k
  {
    DeletedAlike(root, prefix, k);
    var full := DeletedPrefix(root, prefix);
    if root != "" { assert Full(root, k)[0] == root[0]; }
  }

  lemma EtcdStep(kv: Kv, m: map<string, string>, root: string, keys: set<string>, c: Call)
    requires "" !in kv && Stands(EtcdValue(kv), m, root, keys)
    requires NoDirectoryAmong(keys) && Over([c], keys)
    ensures "" !in Apply(kv, root, EtcdOp(c))
    ensures Stands(EtcdValue(Apply(kv, root, EtcdOp(c))), PlainApply(m, root, c), root, keys)
  {
    assert c in [c];
    EmptyKeyStaysOut(kv, root, EtcdOp(c));
    var kv', m' := Apply(kv, root, EtcdOp(c)), PlainApply(m, root, c);
    forall k | k in keys ensures EtcdValue(kv')(Full(root, k)) == if k in m' then Some(m'[k]) else None {
      assert EtcdValue(kv)(Full(root, k)) == if k in m then Some(m[k]) else None;
      match c
      case CPut(key, value) =>
        PutEffect(kv, root, key, Entry(value, 0), !IsTag(value), k);
        assert !IsAncestor(k, key);
      case CGet(_) =>
      case CDelete(key) => FullInjective(root, k, key);
      case CDeletePrefix(prefix) => DeletedAlike(root, prefix, k);
    }
  }

  lemma ConsulStep(
      slashes: Slashes, kv: map<string, string>, m: map<string, string>, root: string, keys: set<string>, c: Call)
    requires "" !in kv && Stands(ConsulValue(kv), m, root, keys)
    requires NoLeadingSlash(root, keys) && NotStripped(slashes, root, keys) && Over([c], keys)
    ensures "" !in ConsulApply(slashes, kv, root, c)
    ensures Stands(ConsulValue(ConsulApply(slashes, kv, root, c)), PlainApply(m, root, c), root, keys)
  {
    assert c in [c];
    var kv', m' := ConsulApply(slashes, kv, root, c), PlainApply(m, root, c);
    forall k | k in keys ensures ConsulValue(kv')(Full(root, k)) == if k in m' then Some(m'[k]) else None {
      assert ConsulValue(kv)(Full(root, k)) == if k in m then Some(m[k]) else None;
      match c
      case CPut(key, _) => FullInjective(root, k, key);
      case CGet(_) =>
      case CDelete(key) => FullInjective(root, k, key);
      case CDeletePrefix(prefix) => if Full(root, k) != "" { ReachedAlike(slashes, root, keys, prefix, k); }
    }
  }

  /** From states that stand for the same plain map, every run of both backends
      answers as that map does. */
  lemma {:induction false} BothRefine(
      slashes: Slashes, etcd: Kv, consul: map<string, string>, m: map<string, string>,
      root: string, keys: set<string>, calls: seq<Call>)
    requires "" !in etcd && "" !in consul
    requires Stands(EtcdValue(etcd), m, root, keys) && Stands(ConsulValue(consul), m, root, keys)
    requires NoDirectoryAmong(keys) && NoLeadingSlash(root, keys) && NotStripped(slashes, root, keys)
    requires Over(calls, keys)
    ensures EtcdAnswers(etcd, root, calls) == PlainAnswers(m, root, calls)
    ensures ConsulAnswers(slashes, consul, root, calls) == PlainAnswers(m, root, calls)
    decreases |calls|
  {
    if calls != [] {
      var c := calls[0];
      assert Over([c], keys) && Over(calls[1..], keys);
      EtcdStep(etcd, m, root, keys, c);
      ConsulStep(slashes, consul, m, root, keys, c);
      BothRefine(
        slashes, Apply(etcd, root, EtcdOp(c)), ConsulApply(slashes, consul, root, c), PlainApply(m, root, c),
        root, keys, calls[1..]);
      if c.CGet? {
        assert EtcdValue(etcd)(Full(root, c.key)) == ConsulValue(consul)(Full(root, c.key));
        assert EtcdValue(etcd)(Full(root, c.key)) == if c.key in m then Some(m[c.key]) else None;
      }
    }
  }

  ghost predicate AlwaysAgree(slashes: Slashes, root: string, keys: set<string>) {
    forall calls | Over(calls, keys) ::
      EtcdAnswers(map[], root, calls) == ConsulAnswers(slashes, map[], root, calls)
  }

  /** Started empty under one root, the backends answer alike on every run over a set of
      keys exactly when no key of the set is a directory of another, none but the empty key is
      one that Consul refuses to write, and no prefix is stripped to one of them. */
  lemma BackendsAgree(slashes: Slashes, root: string, keys: set<string>)
    ensures AlwaysAgree(slashes, root, keys) <==>
            && NoDirectoryAmong(keys)
            && (forall k | k in keys :: Full(root, k) == "" || Full(root, k)[0] != '/')
            && (slashes.Stripped? && root == "" ==> forall k | k in keys :: k == "")
  {
    if !NoLeadingSlash(root, keys) {
      var k :| k in keys && Full(root, k) != "" && Full(root, k)[0] == '/';
      assert Over([CPut(k, "x"), CGet(k)], keys);
      SlashTells(slashes, root, k);
    } else if !NotStripped(slashes, root, keys) {
      var k :| k in keys && k != "";
      assert Over([CPut(k, "x"), CDeletePrefix("/" + k), CGet(k)], keys);
      assert Accepted(Full(root, k));
      StripTells(k);
    } else if NoDirectoryAmong(keys) {
      forall calls | Over(calls, keys)
        ensures EtcdAnswers(map[], root, calls) == ConsulAnswers(slashes, map[], root, calls)
      {
        BothRefine(slashes, map[], map[], map[], root, keys, calls);
      }
    } else {
      var a, b :| a in keys && b in keys && IsAncestor(a, b);
      assert Over([CPut(a, "x"), CPut(b, "y"), CGet(a)], keys);
      DirectoryTells(slashes, root, a, b);
    }
  }

  /** A key that Consul refuses and etcd takes. */
  lemma SlashTells(slashes: Slashes, root: string, k: string)
    requires Full(root, k) != "" && Full(root, k)[0] == '/'
    ensures var calls := [CPut(k, "x"), CGet(k)];
            EtcdAnswers(map[], root, calls) != ConsulAnswers(slashes, map[], root, calls)
  {
    var calls := [CPut(k, "x"), CGet(k)];
    assert calls[1..] == [CGet(k)];
    var kv := Apply(map[], root, Plain(k, "x"));
    PutEffect(map[], root, k, Entry("x", 0), true, k);
    assert Lookup(kv, Full(root, k)) == "x";
    assert EtcdAnswers(kv, root, [CGet(k)])[0] == "x";
    assert EtcdAnswers(map[], root, calls) == EtcdAnswers(kv, root, [CGet(k)]);
    assert ConsulAnswers(slashes, map[], root, calls) == ConsulAnswers(slashes, map[], root, [CGet(k)]);
    assert ConsulAnswers(slashes, map[], root, [CGet(k)])[0] == "";
  }

  /** A client that strips a leading '/' reads and deletes the key behind it; one that refuses it
      answers "" and deletes nothing. */
  lemma LeadingSlash(kv: map<string, string>, k: string)
    requires Accepted(k)
    ensures ConsulLookup(Stripped, kv, "/" + k) == (if k in kv then kv[k] else "")
    ensures ConsulLookup(Refused, kv, "/" + k) == ""
    ensures ConsulApply(Stripped, kv, "", CDelete("/" + k)) == kv - {k}
    ensures ConsulApply(Refused, kv, "", CDelete("/" + k)) == kv
    ensures ConsulApply(Refused, kv, "", CDeletePrefix("/" + k)) == kv
  {
    assert ("/" + k)[1..] == k;
    assert Full("", "/" + k) == "/" + k;
  }

  /** A prefix that only a client that strips its '/' finds something under. */
  lemma StripTells(k: string)
    requires Accepted(k)
    ensures var calls := [CPut(k, "x"), CDeletePrefix("/" + k), CGet(k)];
            EtcdAnswers(map[], "", calls) != ConsulAnswers(Stripped, map[], "", calls)
  {
    EtcdKeeps(k);
    ConsulStrips(k);
  }

  lemma EtcdKeeps(k: string)
    requires Accepted(k)
    ensures EtcdAnswers(map[], "", [CPut(k, "x"), CDeletePrefix("/" + k), CGet(k)]) == ["x"]
  {
    var calls := [CPut(k, "x"), CDeletePrefix("/" + k), CGet(k)];
    assert calls[1..] == [CDeletePrefix("/" + k), CGet(k)] && calls[1..][1..] == [CGet(k)];
    var kv := Apply(map[], "", Plain(k, "x"));
    PutEffect(map[], "", k, Entry("x", 0), true, k);
    var kv' := Apply(kv, "", DeletePrefix("/" + k));
    assert Lookup(kv', k) == "x";
    assert EtcdAnswers(kv', "", [CGet(k)]) == ["x"];
    assert EtcdAnswers(kv, "", calls[1..]) == EtcdAnswers(kv', "", [CGet(k)]);
  }

  lemma ConsulStrips(k: string)
    requires Accepted(k)
    ensures ConsulAnswers(Stripped, map[], "", [CPut(k, "x"), CDeletePrefix("/" + k), CGet(k)]) == [""]
  {
    var calls := [CPut(k, "x"), CDeletePrefix("/" + k), CGet(k)];
    assert calls[1..] == [CDeletePrefix("/" + k), CGet(k)] && calls[1..][1..] == [CGet(k)];
    var m := ConsulApply(Stripped, map[], "", CPut(k, "x"));
    assert Reached(Stripped, "/" + k) == ("/" + k)[1..] == k;
    assert ConsulApply(Stripped, m, "", CDeletePrefix("/" + k)) == map[];
    assert ConsulAnswers(Stripped, map[], "", [CGet(k)]) == [""];
    assert ConsulAnswers(Stripped, m, "", calls[1..]) == ConsulAnswers(Stripped, map[], "", [CGet(k)]);
  }

  lemma DirectoryTells(slashes: Slashes, root: string, a: string, b: string)
    requires Full(root, a) == "" || Accepted(Full(root, a))
    requires Accepted(Full(root, b)) && IsAncestor(a, b)
    ensures var calls := [CPut(a, "x"), CPut(b, "y"), CGet(a)];
            EtcdAnswers(map[], root, calls) != ConsulAnswers(slashes, map[], root, calls)
  {
    assert a == "" ==> b[0] == '/';
    EtcdTells(root, a, b);
    ConsulTells(slashes, root, a, b);
  }

  /** Below a directory that held a value, etcd answers the tag and Consul the value. */
  lemma EtcdTells(root: string, a: string, b: string)
    requires Accepted(Full(root, a)) && Accepted(Full(root, b)) && IsAncestor(a, b)
    ensures EtcdAnswers(map[], root, [CPut(a, "x"), CPut(b, "y"), CGet(a)]) == [DIR_TAG]
  {
    var kv1 := Apply(map[], root, Plain(a, "x"));
    var kv2 := Apply(kv1, root, Plain(b, "y"));
    PutEffect(map[], root, a, Entry("x", 0), true, a);
    PutEffect(kv1, root, b, Entry("y", 0), true, a);
    assert Lookup(kv2, Full(root, a)) == DIR_TAG;
    assert EtcdAnswers(kv2, root, [CGet(a)]) == [DIR_TAG];
    var calls := [CPut(a, "x"), CPut(b, "y"), CGet(a)];
    assert calls[1..] == [CPut(b, "y"), CGet(a)] && calls[1..][1..] == [CGet(a)];
    assert EtcdAnswers(kv1, root, calls[1..]) == EtcdAnswers(kv2, root, [CGet(a)]);
  }

  lemma ConsulTells(slashes: Slashes, root: string, a: string, b: string)
    requires Accepted(Full(root, a)) && Accepted(Full(root, b)) && IsAncestor(a, b)
    ensures ConsulAnswers(slashes, map[], root, [CPut(a, "x"), CPut(b, "y"), CGet(a)]) == ["x"]
  {
    FullInjective(root, a, b);
    var kv1 := ConsulApply(slashes, map[], root, CPut(a, "x"));
    var kv2 := ConsulApply(slashes, kv1, root, CPut(b, "y"));
    assert kv2[Full(root, a)] == "x";
    assert ConsulAnswers(slashes, kv2, root, [CGet(a)]) == ["x"];
    var calls := [CPut(a, "x"), CPut(b, "y"), CGet(a)];
    assert calls[1..] == [CPut(b, "y"), CGet(a)] && calls[1..][1..] == [CGet(a)];
    assert ConsulAnswers(slashes, kv1, root, calls[1..]) == ConsulAnswers(slashes, kv2, root, [CGet(a)]);
  }
}
