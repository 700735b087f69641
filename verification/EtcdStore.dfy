/** The etcd store (etcd/core.go) over an abstract etcd client. */
module EtcdStore {
  import opened Text
  import opened EtcdTree
  import opened ServiceId
  import opened Registry

  /** A panic is a nil dereference in the source. */
  datatype Outcome = Done | Failed | Panicked

  /** The etcd client: a flat map and a lease counter. A faulty client may refuse any
      request; a refused request changes nothing. */
  class Client {
    var kv: Kv
    var granted: nat  // leases handed out so far; ids are 1, 2, ...
    ghost var writes: seq<string>  // keys of the write requests received
    const faulty: bool

    constructor (faulty: bool)
      ensures kv == map[] && granted == 0 && writes == [] && this.faulty == faulty
    {
      kv, granted, writes, this.faulty := map[], 0, [], faulty;
    }

    method Put(key: string, e: Entry) returns (ok: bool)
      modifies this`kv, this`writes
      ensures writes == old(writes) + [key]
      ensures !faulty ==> ok == (key != "")
      ensures ok ==> key != ""
      ensures kv == if ok then Write(old(kv), key, e) else old(kv)
    {
      var refused: bool := *;
      ok := key != "" && !(faulty && refused);
      writes := writes + [key];
      if ok { kv := kv[key := e]; }
    }

    method Get(key: string) returns (ok: bool, found: bool, value: string)
      ensures !faulty ==> ok == (key != "")
      ensures ok ==> found == (key in kv) && (found ==> value == kv[key].value)
    {
      var refused: bool := *;
      ok, found, value := key != "" && !(faulty && refused), false, "";
      if ok && key in kv { found, value := true, kv[key].value; }
    }

    method Grant() returns (ok: bool, id: nat)
      modifies this`granted
      ensures !faulty ==> ok
      ensures ok ==> id == old(granted) + 1 && granted == id
      ensures !ok ==> granted == old(granted)
    {
      var refused: bool := *;
      ok, id := !(faulty && refused), 0;
      if ok { granted := granted + 1; id := granted; }
    }

    method Delete(key: string) returns (ok: bool)
      modifies this`kv
      ensures !faulty ==> ok == (key != "")
      ensures kv == if ok then old(kv) - {key} else old(kv)
    {
      var refused: bool := *;
      ok := key != "" && !(faulty && refused);
      if ok { kv := kv - {key}; }
    }

    method DeleteWithPrefix(prefix: string) returns (ok: bool)
      modifies this`kv
      ensures !faulty ==> ok
      ensures kv == if ok then WithoutPrefix(old(kv), prefix) else old(kv)
    {
      var refused: bool := *;
      ok := !(faulty && refused);
      if ok { kv := WithoutPrefix(kv, prefix); }
    }
  }

  function FullKeys(root: string, dirs: set<string>): set<string> {
    set a | a in dirs :: Full(root, a)
  }

  /** All that a write may do on a faulty client: the entry at `key`, and bare tags on ancestors. */
  ghost predicate OnlyTagsAdded(before: Kv, after: Kv, root: string, dirs: set<string>) {
    && before.Keys <= after.Keys
    && forall f | f in after ::
         || (f in before && after[f] == before[f])
         || (after[f] == TAG && f in FullKeys(root, dirs))
  }

  lemma TagIsTag()
    ensures IsTag(DIR_TAG)
  {
  }

  lemma OnlyTagsStep(before: Kv, after: Kv, root: string, dirs: set<string>, dk: string)
    requires OnlyTagsAdded(before, after, root, dirs) && dk in dirs
    ensures OnlyTagsAdded(before, Write(after, Full(root, dk), TAG), root, dirs)
  {
  }

  /** The directories of `key` seen so far, when those of `at` are left. */
  ghost predicate Visited(key: string, done: set<string>, at: string) {
    done !! Ancestors(at) && done + Ancestors(at) == Ancestors(key)
  }

  /** The keys behind some of the store's keys. */
  function FullSeq(root: string, keys: seq<string>): seq<string> {
    seq(|keys|, i requires 0 <= i < |keys| => Full(root, keys[i]))
  }

  lemma FullSeqMore(root: string, a: seq<string>, b: seq<string>)
    ensures FullSeq(root, a + b) == FullSeq(root, a) + FullSeq(root, b)
  {
  }

  /** What has become of the store when the directories in `done` have been seen to and those of
      `at` are left. */
  ghost predicate Built(
      faulty: bool, kv0: Kv, writes0: seq<string>, kv: Kv, writes: seq<string>,
      root: string, key: string, done: set<string>, at: string) {
    && OnlyTagsAdded(kv0, kv, root, Ancestors(key))
    && (!faulty ==>
          && kv == Tagged(kv0, root, done)
          && writes + FullSeq(root, TagOrder(kv0, root, at)) == writes0 + FullSeq(root, TagOrder(kv0, root, key)))
  }

  lemma NothingVisited(faulty: bool, kv: Kv, writes: seq<string>, root: string, key: string)
    ensures Visited(key, {}, key) && Built(faulty, kv, writes, kv, writes, root, key, {}, key)
  {
  }

  /** The deepest ancestor of `at` is a directory not seen before that still reads as it did. */
  lemma VisitParent(kv0: Kv, root: string, key: string, done: set<string>, at: string)
    requires Visited(key, done, at) && DirParts(at) != []
    ensures var p := Join(DirParts(at));
            && DirParts(at)[..|DirParts(at)| - 1] == DirParts(p)
            && LastSlash(at) >= 0 && p == at[..LastSlash(at)]
            && p !in done && p in Ancestors(key) && Visited(key, done + {p}, p)
            && Lookup(Tagged(kv0, root, done), Full(root, p)) == Lookup(kv0, Full(root, p))
  {
    DirPartsPeel(at);
    DirPartsParent(at);
    NotYetTagged(kv0, root, done, Join(DirParts(at)));
  }

  lemma AllVisited(key: string, done: set<string>, at: string)
    requires Visited(key, done, at) && DirParts(at) == []
    ensures done == Ancestors(key) && forall kv, root :: TagOrder(kv, root, at) == []
  {
    DirPartsParent(at);
  }

  lemma TurnOrder(kv0: Kv, root: string, at: string, p: string, writes: seq<string>)
    requires LastSlash(at) >= 0 && p == at[..LastSlash(at)]
    ensures var now := if IsTag(Lookup(kv0, Full(root, p))) then [] else [Full(root, p)];
            writes + FullSeq(root, TagOrder(kv0, root, at)) ==
            (writes + now) + FullSeq(root, TagOrder(kv0, root, p))
  {
    var first := if IsTag(Lookup(kv0, Full(root, p))) then [] else [p];
    FullSeqMore(root, first, TagOrder(kv0, root, p));
    assert FullSeq(root, first) == if IsTag(Lookup(kv0, Full(root, p))) then [] else [Full(root, p)];
    AppendTwice(writes, FullSeq(root, first), FullSeq(root, TagOrder(kv0, root, p)));
  }

  /** The requests of a Put: the key's, and the tags'. */
  lemma PutWritesAre(kv: Kv, root: string, key: string, e: Entry, build: bool)
    ensures FullSeq(root, PutWrites(kv, root, key, e, build)) ==
            [Full(root, key)] +
            if Full(root, key) != "" && build then FullSeq(root, TagOrder(Write(kv, Full(root, key), e), root, key))
            else []
  {
    FullSeqMore(root, [key], TagOrder(Write(kv, Full(root, key), e), root, key));
    assert FullSeq(root, [key]) == [Full(root, key)];
    assert [key] + [] == [key];
  }

  /** One turn of the loop. */
  lemma TurnDone(
      faulty: bool, kv0: Kv, writes0: seq<string>, kv: Kv, writes: seq<string>, kv': Kv, writes': seq<string>,
      root: string, key: string, done: set<string>, at: string, p: string)
    requires Built(faulty, kv0, writes0, kv, writes, root, key, done, at) && p !in done && p in Ancestors(key)
    requires LastSlash(at) >= 0 && p == at[..LastSlash(at)]
    requires kv' == kv || kv' == Write(kv, Full(root, p), TAG)
    requires !faulty ==>
               var tagged := IsTag(Lookup(kv0, Full(root, p)));
               && kv' == (if tagged then kv else Write(kv, Full(root, p), TAG))
               && writes' == writes + if tagged then [] else [Full(root, p)]
    ensures Built(faulty, kv0, writes0, kv', writes', root, key, done + {p}, p)
  {
    TurnOrder(kv0, root, at, p, writes);
    TagOneMore(kv0, root, done, p);
    OnlyTagsStep(kv0, kv, root, Ancestors(key), p);
  }

  lemma AppendTwice<T>(x: seq<T>, y: seq<T>, z: seq<T>)
    ensures (x + y) + z == x + (y + z)
  {
  }

  // ---------- a registration of which requests may fail ----------

  /** The directories of a peer's tags are those of its meta. */
  lemma SameDirectories(key: string)
    ensures Ancestors(key + "/meta") == Ancestors(key + "/tags")
  {
    var meta, tags := key + "/meta", key + "/tags";
    AncestorsPeel(meta);
    AncestorsPeel(tags);
    assert meta[|key|] == '/' && meta[|key| + 1..] == "meta" && LastSlash(meta) == |key|;
    assert tags[|key|] == '/' && tags[|key| + 1..] == "tags" && LastSlash(tags) == |key|;
    assert meta[..|key|] == key == tags[..|key|];
  }

  /** Between two writes only tags were added, and after the second again. */
  lemma OnlyTagsThenWrite(
      before: Kv, between: Kv, after: Kv, root: string, dirs: set<string>, full: string, e: Entry)
    requires OnlyTagsAdded(before, between, root, dirs)
    requires OnlyTagsAdded(Write(between, full, e), after, root, dirs)
    ensures OnlyTagsAdded(Write(before, full, e), after, root, dirs)
  {
  }

  /** The two entries of a peer and bare tags on its directories; or, when a write was refused,
      nothing or the tags entry alone. */
  ghost predicate EntriesPut(before: Kv, after: Kv, root: string, key: string, tags: string, meta: string, r: Outcome) {
    var withTags := Write(before, Full(root, key + "/tags"), Entry(tags, 0));
    var withBoth := Write(withTags, Full(root, key + "/meta"), Entry(meta, 0));
    var dirs := Ancestors(key + "/tags");
    && (r == Done ==> OnlyTagsAdded(withBoth, after, root, dirs))
    && (r != Done ==> r == Failed && (after == before || OnlyTagsAdded(withTags, after, root, dirs)))
  }

  /** A heartbeat goroutine: what it writes, and how often. */
  datatype Heartbeat = Heartbeat(key: string, value: string, ttl: nat)

  class KVStoreEtcd {
    var client: Client?
    var root: string
    var heartbeats: seq<Heartbeat>  // goroutines started; none is ever told to stop

    constructor (client: Client, root: string)
      ensures this.client == client && this.root == root && heartbeats == []
    {
      this.client, this.root, heartbeats := client, root, [];
    }

    predicate IsOpen()
      reads this
    {
      client != null
    }

    method Close()
      modifies this`client
      ensures !IsOpen()
    {
      if client != null { client := null; }
    }

    method SetRoot(keyPrefix: string)
      modifies this`root
      ensures root == keyPrefix
    {
      root := keyPrefix;
    }

    method Get(key: string) returns (value: string)
      requires IsOpen()
      requires "" !in client.kv
      ensures value == Lookup(client.kv, Full(root, key)) || (client.faulty && value == "")
    {
      var full := key;
      if |root| > 0 { full := root + "/" + key; }
      var ok, found, v := client.Get(full);
      if !ok { return ""; }
      if found { return v; }
      return "";
    }

    /** The loop body of `buildForDirectory`: tag a directory that does not read as tagged. */
    method EnsureDirectory(dk: string)
      requires IsOpen() && "" !in client.kv
      modifies client
      ensures "" !in client.kv && client.granted == old(client.granted)
      ensures client.kv == old(client.kv) || client.kv == Write(old(client.kv), Full(root, dk), TAG)
      ensures !client.faulty ==>
                var tagged := IsTag(Lookup(old(client.kv), Full(root, dk)));
                && client.kv == (if tagged then old(client.kv) else Write(old(client.kv), Full(root, dk), TAG))
                && client.writes == old(client.writes) + if tagged then [] else [Full(root, dk)]
      decreases 1, 0
    {
      var current := Get(dk);
      if !IsTag(current) {
        TagIsTag();
        var _ := Put(dk, DIR_TAG);
      }
    }

    method BuildForDirectory(key: string)
      requires IsOpen() && "" !in client.kv
      modifies client
      ensures "" !in client.kv && client.granted == old(client.granted)
      ensures OnlyTagsAdded(old(client.kv), client.kv, root, Ancestors(key))
      ensures !client.faulty ==>
                && client.kv == Tagged(old(client.kv), root, Ancestors(key))
                && client.writes == old(client.writes) + FullSeq(root, TagOrder(old(client.kv), root, key))
      decreases 1, 1
    {
      ghost var kv0, writes0, granted0 := client.kv, client.writes, client.granted;
      ghost var done, at: string := {}, key;  // directories visited; path whose parents are left
      var sc := Split(key);
      sc := sc[..|sc| - 1];
      NothingVisited(client.faulty, kv0, writes0, root, key);
      while |sc| >= 1
        invariant sc == DirParts(at) && Visited(key, done, at)
        invariant "" !in client.kv && client.granted == granted0
        invariant Built(client.faulty, kv0, writes0, client.kv, client.writes, root, key, done, at)
      {
        VisitParent(kv0, root, key, done, at);
        ghost var before, writes := client.kv, client.writes;
        var dk := Join(sc);
        EnsureDirectory(dk);
        TurnDone(client.faulty, kv0, writes0, before, writes, client.kv, client.writes, root, key, done, at, dk);
        sc := sc[..|sc| - 1];
        at, done := dk, done + {dk};
      }
      AllVisited(key, done, at);
    }

    method PutLite(key: string, value: string) returns (r: Outcome)
      requires IsOpen() && "" !in client.kv
      modifies client
      ensures "" !in client.kv && client.granted == old(client.granted)
      ensures client.writes == old(client.writes) + [Full(root, key)]
      ensures r == Done || (r == Failed && (client.faulty || Full(root, key) == ""))
      ensures client.kv == if r == Done
                           then AfterPut(old(client.kv), root, key, Entry(value, 0), false)
                           else old(client.kv)
      ensures Full(root, key) == "" ==> r == Failed
    {
      var full := key;
      if |root| > 0 { full := root + "/" + key; }
      var ok := client.Put(full, Entry(value, 0));
      return if ok then Done else Failed;
    }

    /** The exact effect when the client is sound; on a faulty client an error means nothing
        was written, and success still means the value is there and only tags came with it. */
    method Put(key: string, value: string) returns (r: Outcome)
      requires IsOpen() && "" !in client.kv
      modifies client
      ensures "" !in client.kv && client.granted == old(client.granted)
      ensures r == Done || (r == Failed && (client.faulty || Full(root, key) == ""))
      ensures Full(root, key) == "" ==> r == Failed
      ensures r == Failed ==> client.kv == old(client.kv)
      ensures r == Done && !IsTag(value) ==>
                OnlyTagsAdded(Write(old(client.kv), Full(root, key), Entry(value, 0)), client.kv, root, Ancestors(key))
      ensures r == Done && IsTag(value) ==> client.kv == Write(old(client.kv), Full(root, key), Entry(value, 0))
      ensures IsTag(value) ==> client.writes == old(client.writes) + [Full(root, key)]
      ensures !client.faulty ==>
                && client.kv == AfterPut(old(client.kv), root, key, Entry(value, 0), !IsTag(value))
                && client.writes ==
                   old(client.writes) +
                   FullSeq(root, PutWrites(old(client.kv), root, key, Entry(value, 0), !IsTag(value)))
      decreases if IsTag(value) then 0 else 2
    {
      r := PutLite(key, value);
      ghost var between := client.kv;
      PutWritesAre(old(client.kv), root, key, Entry(value, 0), !IsTag(value));
      if r != Done { return; }
      if !IsTag(value) {
        BuildForDirectory(key);
        AppendTwice(old(client.writes), [Full(root, key)], FullSeq(root, TagOrder(between, root, key)));
      }
    }

    method PutTTLLite(key: string, value: string) returns (r: Outcome)
      requires IsOpen() && "" !in client.kv
      modifies client
      ensures "" !in client.kv
      ensures !client.faulty ==> r == if Full(root, key) == "" then Failed else Done
      ensures r == Panicked <==> client.granted == old(client.granted)
      ensures r != Panicked ==> client.granted == old(client.granted) + 1
      ensures client.kv == if r == Done
                           then AfterPut(old(client.kv), root, key, Entry(value, client.granted), false)
                           else old(client.kv)
      ensures client.writes == old(client.writes) + if r == Panicked then [] else [Full(root, key)]
      ensures Full(root, key) == "" ==> r != Done
    {
      var full := key;
      if |root| > 0 { full := root + "/" + key; }
      var granted, id := client.Grant();
      if !granted { return Panicked; }  // a failed Grant answers nil, and its ID is read
      var ok := client.Put(full, Entry(value, id));
      return if ok then Done else Failed;
    }

    method PutTTL(key: string, value: string) returns (r: Outcome)
      requires IsOpen() && "" !in client.kv
      modifies client
      ensures "" !in client.kv
      ensures r != Done ==> client.kv == old(client.kv)
      ensures r == Done ==>
                OnlyTagsAdded(Write(old(client.kv), Full(root, key), Entry(value, client.granted)), client.kv, root,
                              if IsTag(value) then {} else Ancestors(key))
      ensures !client.faulty ==>
                && r == (if Full(root, key) == "" then Failed else Done)
                && client.granted == old(client.granted) + 1
                && client.kv == AfterPut(old(client.kv), root, key, Entry(value, client.granted), !IsTag(value))
    {
      r := PutTTLLite(key, value);
      if r != Done { return; }
      if !IsTag(value) {
        BuildForDirectory(key);
      }
    }

    /** `doc` is the encoded document; directories follow whatever it holds. */
    method PutYaml(key: string, doc: string) returns (r: Outcome)
      requires IsOpen() && "" !in client.kv
      modifies client
      ensures "" !in client.kv
      ensures r != Done ==> r == Failed && client.kv == old(client.kv)
      ensures r == Done ==>
                OnlyTagsAdded(Write(old(client.kv), Full(root, key), Entry(doc, 0)), client.kv, root, Ancestors(key))
      ensures !client.faulty ==>
                && r == (if Full(root, key) == "" then Failed else Done)
                && client.kv == AfterPut(old(client.kv), root, key, Entry(doc, 0), true)
    {
      r := PutLite(key, doc);  // PutYamlLite writes the encoded text the same way
      if r != Done { return; }
      BuildForDirectory(key);
    }

    method Delete(key: string) returns (ok: bool)
      requires IsOpen() && "" !in client.kv
      modifies client
      ensures "" !in client.kv
      ensures !client.faulty ==> ok == (Full(root, key) != "")
      ensures client.kv == if ok then old(client.kv) - {Full(root, key)} else old(client.kv)
    {
      var full := key;
      if |root| > 0 { full := root + "/" + key; }
      ok := client.Delete(full);
    }

    method DeletePrefix(keyPrefix: string) returns (ok: bool)
      requires IsOpen() && "" !in client.kv
      modifies client
      ensures "" !in client.kv
      ensures !client.faulty ==> ok
      ensures client.kv == if ok then WithoutPrefix(old(client.kv), DeletedPrefix(root, keyPrefix)) else old(client.kv)
    {
      var full := keyPrefix;
      if |root| > 0 {
        if |keyPrefix| == 0 { full := root; } else { full := root + "/" + keyPrefix; }
      }
      ok := client.DeleteWithPrefix(full);
    }

    /** Writes the two entries and starts the heartbeat, whose timing is the subject of
        Lease.dfy; `tags` and `meta` are the encoded lists. An error is the refusal of one of
        the two writes: nothing or only the tags entry is there, and no heartbeat is started. */
    method Register(service: string, id: string, ip: IPv4, port: nat, ttl: nat, tags: string, meta: string)
      returns (r: Outcome)
      requires IsOpen() && "" !in client.kv
      modifies client, this`heartbeats
      ensures client == old(client)
      ensures var key := PeerKey(service, EffectiveId(service, id, ip, port)) + "/addr";
              heartbeats ==
              if r == Done
              then old(heartbeats) + [Heartbeat(key, AddrText(ip, port), if ttl == 0 then 8 else ttl)]
              else old(heartbeats)
      ensures r == Done ==> heartbeats != [] && SpellsAddress(heartbeats[|heartbeats| - 1].value, ip, port)
      ensures "" !in client.kv
      ensures !client.faulty ==>
                && r == Done
                && client.kv ==
                   AfterRegister(old(client.kv), root, service, EffectiveId(service, id, ip, port), tags, meta)
      ensures EntriesPut(old(client.kv), client.kv, root, PeerKey(service, EffectiveId(service, id, ip, port)),
                         tags, meta, r)
    {
      var keyBase := SERVICE_REGISTRY_ROOT + "/" + service;
      var id' := id;
      if |id| == 0 {
        id' := service + "-" + DotsToDashes(IpText(ip)) + "-" + Decimal(port);
      }
      var key := keyBase + "/peers/" + id';
      assert key == PeerKey(service, id');
      var ttl' := ttl;
      if ttl == 0 { ttl' := 8; }
      r := PutEntries(key, tags, meta);
      if r == Done {
        StartHeartbeat(key + "/addr", ip, port, ttl');
      }
    }

    method PutEntries(key: string, tags: string, meta: string) returns (r: Outcome)
      requires IsOpen() && "" !in client.kv && key != ""
      modifies client
      ensures "" !in client.kv
      ensures !client.faulty ==>
                && r == Done
                && client.kv == AfterPut(AfterPut(old(client.kv), root, key + "/tags", Entry(tags, 0), true),
                                         root, key + "/meta", Entry(meta, 0), true)
      ensures EntriesPut(old(client.kv), client.kv, root, key, tags, meta, r)
    {
      assert Full(root, key + "/tags") != "" && Full(root, key + "/meta") != "";
      r := PutYaml(key + "/tags", tags);
      if r != Done { return; }
      ghost var between := client.kv;
      r := PutYaml(key + "/meta", meta);
      if r == Done {
        SameDirectories(key);
        OnlyTagsThenWrite(
          Write(old(client.kv), Full(root, key + "/tags"), Entry(tags, 0)), between, client.kv,
          root, Ancestors(key + "/tags"), Full(root, key + "/meta"), Entry(meta, 0));
      }
    }

    method StartHeartbeat(key: string, ip: IPv4, port: nat, ttl: nat)
      modifies this`heartbeats
      ensures heartbeats == old(heartbeats) + [Heartbeat(key, AddrText(ip, port), ttl)]
      ensures SpellsAddress(heartbeats[|heartbeats| - 1].value, ip, port)
    {
      AddrReadsBack(ip, port);
      heartbeats := heartbeats + [Heartbeat(key, IpText(ip) + ":" + Decimal(port), ttl)];
    }

    /** One turn of a heartbeat's loop, as long as the store is open. */
    method Beat(h: Heartbeat) returns (r: Outcome)
      requires h in heartbeats
      requires IsOpen() ==> "" !in client.kv
      modifies client
      ensures !IsOpen() ==> r == Done
      ensures IsOpen() && r == Done ==>
                && client.granted == old(client.granted) + 1
                && client.kv == AfterPut(old(client.kv), root, h.key, Entry(h.value, client.granted), false)
      ensures IsOpen() && r != Done ==> client.kv == old(client.kv)
      ensures IsOpen() ==>
                && "" !in client.kv
                && (!client.faulty ==> r == if Full(root, h.key) == "" then Failed else Done)
    {
      r := Done;
      if client != null {
        r := PutTTLLite(h.key, h.value);
      }
    }

    /** A closed store deregisters nothing; a refused request goes unreported. The heartbeats
        go on. */
    method Deregister(service: string, id: string, ip: IPv4, port: nat)
      requires IsOpen() ==> "" !in client.kv
      modifies client
      ensures heartbeats == old(heartbeats)
      ensures IsOpen() ==> "" !in client.kv
      ensures IsOpen() ==>
                var after := AfterDeregister(old(client.kv), root, service, id, ip, port);
                client.kv == after || (client.faulty && client.kv == old(client.kv))
    {
      if client != null {
        var all := false;
        var id' := id;
        if |id| == 0 {
          if IsUnspecified(ip) || port == 0 {
            all := true;
          } else {
            id' := service + "-" + DotsToDashes(IpText(ip)) + "-" + Decimal(port);
          }
        } else if IsUnspecified(ip) || port == 0 {
          all := true;
        }
        var keyPrefix := SERVICE_REGISTRY_ROOT + "/" + service + "/peers";
        if all {
          var _ := DeletePrefix(keyPrefix);
        } else {
          var _ := DeletePrefix(keyPrefix + "/" + id');
        }
      }
    }
  }
}
