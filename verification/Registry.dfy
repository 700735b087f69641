/** Service registrations in the etcd key space: what Register writes and what deregister
    deletes. EtcdStore.dfy proves the source's methods against these functions. */
module Registry {
  import opened Text
  import opened EtcdTree
  import opened EtcdRuns
  import opened ServiceId

  /** The part of Register that runs before the heartbeat starts. */
  function AfterRegister(kv: Kv, root: string, service: string, id: string, tags: string, meta: string): Kv {
    var key := PeerKey(service, id);
    AfterPut(AfterPut(kv, root, key + "/tags", Entry(tags, 0), true), root, key + "/meta", Entry(meta, 0), true)
  }

  /** The heartbeat's first write. */
  function AfterFirstBeat(kv: Kv, root: string, service: string, id: string, addr: string, lease: nat): Kv {
    AfterPut(kv, root, PeerKey(service, id) + "/addr", Entry(addr, lease), !IsTag(addr))
  }

  /** Later beats, each on a lease of its own; they tag no directory. */
  function AfterBeats(kv: Kv, root: string, service: string, id: string, addr: string, leases: seq<nat>): Kv {
    if leases == [] then kv
    else
      var n := |leases| - 1;
      AfterPut(AfterBeats(kv, root, service, id, addr, leases[..n]),
               root, PeerKey(service, id) + "/addr", Entry(addr, leases[n]), false)
  }

  function AfterDeregister(kv: Kv, root: string, service: string, id: string, ip: IPv4, port: nat): Kv {
    WithoutPrefix(kv, DeletedPrefix(root, DeregisteredPrefix(service, id, ip, port)))
  }

  /** What lies at or below a peer's directory. */
  predicate Below(s: string) {
    s == "" || s[0] == '/'
  }

  lemma PeerPrefix(root: string, service: string, id: string, peer: string, below: string)
    ensures DeletedPrefix(root, PeerKey(service, id)) <= Full(root, PeerKey(service, peer) + below)
            <==> id <= peer + below
  {
    FullPrefix(root, PeerKey(service, id), PeerKey(service, peer) + below);
    assert PeerKey(service, peer) + below == (PeersKey(service) + "/") + (peer + below);
    assert PeerKey(service, id) == (PeersKey(service) + "/") + id;
    PrefixCancel(PeersKey(service) + "/", id, peer + below);
  }

  /** Among peers under generated ids, deregistering one removes exactly those of the same
      address whose port, in decimal, begins with the given port. */
  lemma DeregisterGenerated(
      kv: Kv, root: string, service: string, ip: IPv4, port: nat, ip': IPv4, port': nat, below: string)
    requires !IsUnspecified(ip) && port != 0 && Below(below)
    ensures var f := Full(root, PeerKey(service, GeneratedId(service, ip', port')) + below);
            f in AfterDeregister(kv, root, service, "", ip, port)
            <==> f in kv && !(ip' == ip && Truncates(port', port))
  {
    PeerPrefix(root, service, GeneratedId(service, ip, port), GeneratedId(service, ip', port'), below);
    GeneratedPrefix(service, ip, port, ip', port', below);
  }

  /** Under slash-free explicit ids, exactly the peers whose id begins with the given id go;
      so among prefix-free ids only the named peer does. */
  lemma DeregisterExplicit(
      kv: Kv, root: string, service: string, id: string, ip: IPv4, port: nat, peer: string, below: string)
    requires !IsUnspecified(ip) && port != 0 && Below(below)
    requires id != "" && '/' !in id
    ensures var f := Full(root, PeerKey(service, peer) + below);
            f in AfterDeregister(kv, root, service, id, ip, port) <==> f in kv && !(id <= peer)
  {
    PeerPrefix(root, service, id, peer, below);
    PrefixUnderPeer(id, peer, below);
  }

  /** With port 0 or no address, every peer of the service goes, even when an id is given. */
  lemma DeregisterAllPeers(
      kv: Kv, root: string, service: string, id: string, ip: IPv4, port: nat, peer: string, below: string)
    requires IsUnspecified(ip) || port == 0
    ensures Full(root, PeerKey(service, peer) + below) !in AfterDeregister(kv, root, service, id, ip, port)
  {
  }

  /** No deregistration reaches another service, when service names hold no '/'. */
  lemma OtherServicesUntouched(
      kv: Kv, root: string, service: string, id: string, ip: IPv4, port: nat, other: string, below: string)
    requires '/' !in service && '/' !in other && service != other
    ensures var f := Full(root, SERVICE_REGISTRY_ROOT + "/" + other + "/" + below);
            At(AfterDeregister(kv, root, service, id, ip, port), f) == At(kv, f)
  {
    var base := SERVICE_REGISTRY_ROOT + "/";
    var prefix := DeregisteredPrefix(service, id, ip, port);
    var p := "peers" + prefix[|PeersKey(service)|..];
    assert PeersKey(service) <= prefix;
    assert prefix == base + (service + (['/'] + p));
    var key := SERVICE_REGISTRY_ROOT + "/" + other + "/" + below;
    assert key == base + (other + (['/'] + below));
    PrefixCancel(base, service + (['/'] + p), other + (['/'] + below));
    CutAtFirst(service, p, other, below, '/');
    FullPrefix(root, prefix, key);
  }

  /** What a registration and its first beat leave in the peer's directory: the tags and meta on
      no lease, the address on the beat's, and the directory tagged. */
  lemma RegisteredPeer(
      kv: Kv, root: string, service: string, id: string, tags: string, meta: string, addr: string, lease: nat)
    ensures var now := AfterFirstBeat(AfterRegister(kv, root, service, id, tags, meta), root, service, id, addr, lease);
            var key := PeerKey(service, id);
            && At(now, Full(root, key + "/tags")) == Present(Entry(tags, 0))
            && At(now, Full(root, key + "/meta")) == Present(Entry(meta, 0))
            && At(now, Full(root, key + "/addr")) == Present(Entry(addr, lease))
            && IsTag(Lookup(now, Full(root, key)))
  {
    assert "/" + "tags" == "/tags" && "/" + "meta" == "/meta" && "/" + "addr" == "/addr";
    ThreeLeaves(kv, root, PeerKey(service, id), "tags", Entry(tags, 0), "meta", Entry(meta, 0),
                "addr", Entry(addr, lease), !IsTag(addr));
  }

  lemma ThreeLeaves(
      kv: Kv, root: string, key: string, x: string, e: Entry, y: string, e': Entry, z: string, e'': Entry, build: bool)
    requires key != "" && '/' !in x && '/' !in y && '/' !in z && x != y && x != z && y != z
    ensures var kv1 := AfterPut(kv, root, key + ("/" + x), e, true);
            var kv2 := AfterPut(kv1, root, key + ("/" + y), e', true);
            var now := AfterPut(kv2, root, key + ("/" + z), e'', build);
            && At(now, Full(root, key + ("/" + x))) == Present(e)
            && At(now, Full(root, key + ("/" + y))) == Present(e')
            && At(now, Full(root, key + ("/" + z))) == Present(e'')
            && IsTag(Lookup(now, Full(root, key)))
  {
    var kv1 := AfterPut(kv, root, key + ("/" + x), e, true);
    var kv2 := AfterPut(kv1, root, key + ("/" + y), e', true);
    LeafSlots(kv, root, key, x, e, true);
    LeafSlots(kv1, root, key, y, e', true);
    LeafSlots(kv2, root, key, z, e'', build);
    LeafKeeps(kv1, root, key, y, e', true, x);
    LeafKeeps(kv2, root, key, z, e'', build, x);
    LeafKeeps(kv2, root, key, z, e'', build, y);
  }

  /** A leaf that was written, and its directory. */
  lemma LeafSlots(kv: Kv, root: string, key: string, leaf: string, e: Entry, build: bool)
    requires key != "" && '/' !in leaf
    ensures var now := AfterPut(kv, root, key + ("/" + leaf), e, build);
            && At(now, Full(root, key + ("/" + leaf))) == Present(e)
            && (build || IsTag(Lookup(kv, Full(root, key))) ==> IsTag(Lookup(now, Full(root, key))))
  {
    var path := key + ("/" + leaf);
    PutEffect(kv, root, path, e, build, path);
    PutEffect(kv, root, path, e, build, key);
    assert key + "/" <= path && |key| < |path|;
    assert IsTag(DIR_TAG);
  }

  lemma LeafKeeps(kv: Kv, root: string, key: string, leaf: string, e: Entry, build: bool, other: string)
    requires '/' !in leaf && '/' !in other && leaf != other
    ensures At(AfterPut(kv, root, key + ("/" + leaf), e, build), Full(root, key + ("/" + other))) ==
            At(kv, Full(root, key + ("/" + other)))
  {
    var path, sibling := key + ("/" + leaf), key + ("/" + other);
    ConcatCancel(key, "/" + leaf, "/" + other);
    ConcatCancel("/", leaf, other);
    assert forall k | |key| < k < |path| :: path[k] == leaf[k - |key| - 1];
    assert (sibling + "/")[|sibling|] == '/';
    PutEffect(kv, root, path, e, build, sibling);
  }

  lemma {:induction false} BeatsAre(kv: Kv, root: string, service: string, id: string, addr: string, leases: seq<nat>)
    ensures AfterBeats(kv, root, service, id, addr, leases) ==
            if leases == [] then kv
            else kv[Full(root, PeerKey(service, id) + "/addr") := Entry(addr, leases[|leases| - 1])]
    decreases |leases|
  {
    if leases != [] { BeatsAre(kv, root, service, id, addr, leases[..|leases| - 1]); }
  }

  lemma BeatsSlot(
      kv: Kv, root: string, service: string, id: string, addr: string, leases: seq<nat>, b: string)
    ensures At(AfterBeats(kv, root, service, id, addr, leases), Full(root, b)) ==
            if b == PeerKey(service, id) + "/addr" && leases != [] then Present(Entry(addr, leases[|leases| - 1]))
            else At(kv, Full(root, b))
  {
    BeatsAre(kv, root, service, id, addr, leases);
    FullInjective(root, b, PeerKey(service, id) + "/addr");
  }

  lemma DeregisteredSlot(kv: Kv, root: string, service: string, id: string, ip: IPv4, port: nat, b: string)
    requires !IsUnspecified(ip) && port != 0
    ensures At(AfterDeregister(kv, root, service, id, ip, port), Full(root, b)) ==
            if PeerKey(service, EffectiveId(service, id, ip, port)) <= b then Absent else At(kv, Full(root, b))
  {
    FullPrefix(root, PeerKey(service, EffectiveId(service, id, ip, port)), b);
  }

  /** An instance registered under `id`, and any number of beats. */
  function AfterLife(
      kv: Kv, root: string, service: string, id: string, tags: string, meta: string,
      addr: string, lease: nat, beats: seq<nat>): Kv {
    var registered := AfterFirstBeat(AfterRegister(kv, root, service, id, tags, meta), root, service, id, addr, lease);
    AfterBeats(registered, root, service, id, addr, beats)
  }

  /** Outside the peer's directory that only tags ancestors. */
  lemma LifeSlot(
      kv: Kv, root: string, service: string, id: string, tags: string, meta: string,
      addr: string, lease: nat, beats: seq<nat>, b: string)
    requires !(PeerKey(service, id) <= b)
    ensures At(AfterLife(kv, root, service, id, tags, meta, addr, lease, beats), Full(root, b)) ==
            TagSlot(IsAncestor(b, PeerKey(service, id)) && Full(root, b) != "", At(kv, Full(root, b)))
  {
    var registered := AfterFirstBeat(AfterRegister(kv, root, service, id, tags, meta), root, service, id, addr, lease);
    BeatsSlot(registered, root, service, id, addr, beats, b);
    assert PeerKey(service, id) <= PeerKey(service, id) + "/addr";
    RegisteredSlot(kv, root, service, id, tags, meta, addr, lease, b);
    assert !IsTag("");
  }

  /** Registering an instance, any beats, deregistering it, and any beats after that: where no
      key began with the deleted prefix before, only directory tags above the peer are left
      over, and its address as soon as there is a beat after the deregistration. */
  lemma DeregisterUndoesRegister(
      kv: Kv, root: string, service: string, id: string, ip: IPv4, port: nat,
      tags: string, meta: string, addr: string, lease: nat, before: seq<nat>, after: seq<nat>, b: string)
    requires !IsUnspecified(ip) && port != 0
    requires forall f | f in kv :: !(Full(root, PeerKey(service, EffectiveId(service, id, ip, port))) <= f)
    ensures var id' := EffectiveId(service, id, ip, port);
            var alive := AfterLife(kv, root, service, id', tags, meta, addr, lease, before);
            var gone := AfterDeregister(alive, root, service, id, ip, port);
            At(AfterBeats(gone, root, service, id', addr, after), Full(root, b)) ==
            if b == PeerKey(service, id') + "/addr" && after != [] then Present(Entry(addr, after[|after| - 1]))
            else TagSlot(IsAncestor(b, PeerKey(service, id')) && Full(root, b) != "", At(kv, Full(root, b)))
  {
    var id' := EffectiveId(service, id, ip, port);
    var alive := AfterLife(kv, root, service, id', tags, meta, addr, lease, before);
    var gone := AfterDeregister(alive, root, service, id, ip, port);
    BeatsSlot(gone, root, service, id', addr, after, b);
    DeregisteredSlot(alive, root, service, id, ip, port, b);
    if PeerKey(service, id') <= b {
      NothingBelow(kv, root, PeerKey(service, id'), b);
    } else {
      LifeSlot(kv, root, service, id', tags, meta, addr, lease, before, b);
    }
  }

  lemma NothingBelow(kv: Kv, root: string, key: string, b: string)
    requires key <= b && forall f | f in kv :: !(Full(root, key) <= f)
    ensures At(kv, Full(root, b)) == Absent && !IsAncestor(b, key)
  {
    FullPrefix(root, key, b);
    AboveOrAt(b, key, "");
  }

  lemma PeerIsDeleted(root: string, service: string, id: string, ip: IPv4, port: nat, below: string)
    ensures DeletedPrefix(root, DeregisteredPrefix(service, id, ip, port))
            <= Full(root, PeerKey(service, EffectiveId(service, id, ip, port)) + below)
  {
    var key := PeerKey(service, EffectiveId(service, id, ip, port));
    assert DeregisteredPrefix(service, id, ip, port) <= key <= key + below;
    FullPrefix(root, DeregisteredPrefix(service, id, ip, port), key + below);
  }

  /** Deregistering stops no heartbeat. Whatever was there, and whatever is deregistered along
      with the instance, its address is back, without its directory, exactly if its heartbeat
      beats again; and a closed tree stays closed exactly if it does not. */
  lemma {:induction false} HeartbeatUndoesDeregister(
      kv: Kv, root: string, service: string, id: string, ip: IPv4, port: nat, addr: string, after: seq<nat>)
    ensures var id' := EffectiveId(service, id, ip, port);
            var now := AfterBeats(AfterDeregister(kv, root, service, id, ip, port), root, service, id', addr, after);
            && (Full(root, PeerKey(service, id') + "/addr") in now <==> after != [])
            && Full(root, PeerKey(service, id')) !in now
            && (Closed(kv, root) ==> (Closed(now, root) <==> after == []))
  {
    var id' := EffectiveId(service, id, ip, port);
    var key, leaf := PeerKey(service, id'), PeerKey(service, id') + "/addr";
    var gone := AfterDeregister(kv, root, service, id, ip, port);
    BeatsAre(gone, root, service, id', addr, after);
    PeerIsDeleted(root, service, id, ip, port, "");
    assert key + "" == key;
    PeerIsDeleted(root, service, id, ip, port, "/addr");
    FullInjective(root, key, leaf);
    if Closed(kv, root) { DeletePrefixClosed(kv, root, DeregisteredPrefix(service, id, ip, port)); }
    assert IsAncestor(key, leaf);
  }

  /** Outside the peer's directory a registration only tags its ancestors. */
  lemma RegisteredSlot(
      kv: Kv, root: string, service: string, id: string, tags: string, meta: string, addr: string, lease: nat,
      b: string)
    requires !(PeerKey(service, id) <= b)
    ensures var registered :=
              AfterFirstBeat(AfterRegister(kv, root, service, id, tags, meta), root, service, id, addr, lease);
            At(registered, Full(root, b)) ==
            if IsAncestor(b, PeerKey(service, id)) && Full(root, b) != "" && !IsTag(Lookup(kv, Full(root, b)))
            then Present(TAG)
            else At(kv, Full(root, b))
  {
    var key := PeerKey(service, id);
    assert key != "";
    var kv1 := AfterPut(kv, root, key + "/tags", Entry(tags, 0), true);
    var kv2 := AfterRegister(kv, root, service, id, tags, meta);
    LeafWrite(kv, root, key, "/tags", Entry(tags, 0), true, b);
    LeafWrite(kv1, root, key, "/meta", Entry(meta, 0), true, b);
    LeafWrite(kv2, root, key, "/addr", Entry(addr, lease), !IsTag(addr), b);
    TagTwice(IsAncestor(b, key) && Full(root, b) != "", !IsTag(addr), At(kv, Full(root, b)));
  }

  /** What tagging does to a slot. */
  function TagSlot(due: bool, s: Slot): Slot {
    if due && !(s.Present? && IsTag(s.e.value)) then Present(TAG) else s
  }

  lemma TagTwice(due: bool, build: bool, s: Slot)
    ensures TagSlot(build && due, TagSlot(due, TagSlot(due, s))) == TagSlot(due, s)
  {
  }

  lemma LeafWrite(kv: Kv, root: string, key: string, leaf: string, e: Entry, build: bool, b: string)
    requires leaf != "" && leaf[0] == '/' && '/' !in leaf[1..] && key != "" && !(key <= b)
    ensures At(AfterPut(kv, root, key + leaf, e, build), Full(root, b)) ==
            TagSlot(build && IsAncestor(b, key) && Full(root, b) != "", At(kv, Full(root, b)))
  {
    assert key + leaf == key + "/" + leaf[1..];
    PutEffect(kv, root, key + leaf, e, build, b);
    AboveOrAt(b, key, leaf[1..]);
    assert !IsTag("");
  }

  /** The ancestors of a leaf of a directory are the directory and its ancestors. */
  lemma AboveOrAt(b: string, key: string, leaf: string)
    requires '/' !in leaf
    ensures IsAncestor(b, key + "/" + leaf) <==> b == key || IsAncestor(b, key)
    ensures key <= b && IsAncestor(b, key + "/" + leaf) ==> b == key
    ensures b == key + "/" + leaf ==> key <= b
    ensures IsAncestor(b, key) ==> !(key <= b)
  {
    var path := key + "/" + leaf;
    if b + "/" <= path {
      assert path[|b|] == (b + "/")[|b|] == '/';
      assert forall k | |key| < k < |path| :: path[k] == leaf[k - |key| - 1];
      assert |b| <= |key|;
      assert b == path[..|b|] == key[..|b|];
      if |b| < |key| { assert key[..|b| + 1] == path[..|b| + 1] == b + "/"; }
    }
    if b + "/" <= key { assert b + "/" <= key <= path; }
    if b == key { assert b + "/" <= path; }
  }
}
