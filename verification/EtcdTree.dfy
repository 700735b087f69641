/** What the etcd store's writes do to the flat key space: a value at the key,
    a directory tag at every proper ancestor that lacks one. Specification only;
    EtcdStore.dfy proves the source's methods against it. */
module EtcdTree {
  import opened Text

  const DIR_TAG := "etcdv3_dir_$2H#%gRe3*t"

  /** A stored value and the lease it hangs on (0: none). */
  datatype Entry = Entry(value: string, lease: nat)
  type Kv = map<string, Entry>

  const TAG := Entry(DIR_TAG, 0)

  /** `strings.EqualFold(DIR_TAG, value)`. The tag holds no letter with a non-ASCII
      case variant (no 'k', no 's'), so ASCII folding is exact here. */
  predicate IsTag(value: string) {
    EqualFold(AsciiLower, DIR_TAG, value)
  }

  /** Exactly the tag in any case of its letters; and none of them folds beyond ASCII. */
  lemma IsTagExact(value: string)
    ensures IsTag(value) <==>
              && |value| == |DIR_TAG|
              && forall i | 0 <= i < |value| :: value[i] == DIR_TAG[i] || OtherCase(value[i], DIR_TAG[i])
    ensures forall i | 0 <= i < |DIR_TAG| :: DIR_TAG[i] < 128 as char && DIR_TAG[i] !in "kKsS"
  {
    if |value| == |DIR_TAG| {
      forall i | 0 <= i < |value|
        ensures AsciiLower(DIR_TAG[i]) == AsciiLower(value[i])
                <==> value[i] == DIR_TAG[i] || OtherCase(value[i], DIR_TAG[i])
      {
        AsciiFoldsAlike(DIR_TAG[i], value[i]);
      }
    }
  }

  /** The backend key behind a key of the store. */
  function Full(root: string, key: string): string {
    if |root| > 0 then root + "/" + key else key
  }

  /** What `Get` answers: "" stands for a missing key too. */
  function Lookup(kv: Kv, full: string): string {
    if full in kv then kv[full].value else ""
  }

  /** One backend write; etcd refuses the empty key. */
  function Write(kv: Kv, full: string, e: Entry): Kv {
    if full == "" then kv else kv[full := e]
  }

  /** The directories among `dirs` that `Get` does not report as tagged. */
  function Untagged(kv: Kv, root: string, dirs: set<string>): set<string> {
    set a | a in dirs && !IsTag(Lookup(kv, Full(root, a)))
  }

  /** The backend keys that receive a tag. */
  function TagKeys(kv: Kv, root: string, dirs: set<string>): set<string> {
    set a | a in Untagged(kv, root, dirs) && Full(root, a) != "" :: Full(root, a)
  }

  function Tagged(kv: Kv, root: string, dirs: set<string>): Kv {
    kv + map f | f in TagKeys(kv, root, dirs) :: TAG
  }

  /** The store after a write of `e` at `key`; `build` says whether directories follow. */
  function AfterPut(kv: Kv, root: string, key: string, e: Entry, build: bool): Kv {
    if Full(root, key) == "" then kv
    else if build then Tagged(Write(kv, Full(root, key), e), root, Ancestors(key))
    else Write(kv, Full(root, key), e)
  }

  /** The directories of `at` that a tag is asked for, in that order: the deepest first. */
  function TagOrder(kv: Kv, root: string, at: string): seq<string>
    decreases |at|
  {
    if LastSlash(at) < 0 then []
    else
      var p := at[..LastSlash(at)];
      (if IsTag(Lookup(kv, Full(root, p))) then [] else [p]) + TagOrder(kv, root, p)
  }

  /** The write requests of a call, in order. */
  function PutWrites(kv: Kv, root: string, key: string, e: Entry, build: bool): seq<string> {
    [key] +
    if Full(root, key) != "" && build then TagOrder(Write(kv, Full(root, key), e), root, key) else []
  }

  /** How many write requests the same call sends. */
  function PutRequests(kv: Kv, root: string, key: string, e: Entry, build: bool): nat {
    if Full(root, key) != "" && build
    then 1 + |Untagged(Write(kv, Full(root, key), e), root, Ancestors(key))|
    else 1
  }

  /** The prefix `DeletePrefix` hands to the backend. */
  function DeletedPrefix(root: string, keyPrefix: string): string {
    if |root| > 0 && |keyPrefix| == 0 then root else Full(root, keyPrefix)
  }

  function WithoutPrefix<V>(kv: map<string, V>, prefix: string): map<string, V> {
    map k | k in kv && !(prefix <= k) :: kv[k]
  }

  // ---------- lemmas ----------

  /** One more directory to tag, the deepest. */
  lemma UntaggedPeel(kv: Kv, root: string, at: string)
    requires LastSlash(at) >= 0
    ensures var p := at[..LastSlash(at)];
            && p !in Untagged(kv, root, Ancestors(p))
            && Untagged(kv, root, Ancestors(at)) ==
               Untagged(kv, root, Ancestors(p)) + if IsTag(Lookup(kv, Full(root, p))) then {} else {p}
  {
    AncestorsPeel(at);
  }

  /** Just the directories without a tag, each once. */
  lemma {:induction false} TagOrderIs(kv: Kv, root: string, at: string, a: string)
    ensures a in TagOrder(kv, root, at) <==> a in Untagged(kv, root, Ancestors(at))
    ensures |TagOrder(kv, root, at)| == |Untagged(kv, root, Ancestors(at))|
    decreases |at|
  {
    if LastSlash(at) < 0 {
      AncestorsPeel(at);
      assert Untagged(kv, root, Ancestors(at)) == {};
    } else {
      UntaggedPeel(kv, root, at);
      TagOrderIs(kv, root, at[..LastSlash(at)], a);
    }
  }

  /** Each path before its ancestors. */
  ghost predicate Ascending(order: seq<string>) {
    forall i, j | 0 <= i < j < |order| :: IsAncestor(order[j], order[i])
  }

  lemma AscendingMore(p: string, rest: seq<string>)
    requires Ascending(rest) && forall j | 0 <= j < |rest| :: IsAncestor(rest[j], p)
    ensures Ascending([p] + rest)
  {
  }

  /** The tags go from the deepest directory up. */
  lemma {:induction false} DeepestFirst(kv: Kv, root: string, at: string)
    ensures Ascending(TagOrder(kv, root, at))
    decreases |at|
  {
    if LastSlash(at) >= 0 {
      var p := at[..LastSlash(at)];
      var rest := TagOrder(kv, root, p);
      DeepestFirst(kv, root, p);
      if IsTag(Lookup(kv, Full(root, p))) {
        assert [] + rest == rest;
      } else {
        forall j | 0 <= j < |rest| ensures IsAncestor(rest[j], p) { InTagOrder(kv, root, p, j); }
        AscendingMore(p, rest);
      }
    }
  }

  lemma InTagOrder(kv: Kv, root: string, at: string, j: nat)
    requires j < |TagOrder(kv, root, at)|
    ensures IsAncestor(TagOrder(kv, root, at)[j], at)
  {
    var a := TagOrder(kv, root, at)[j];
    TagOrderIs(kv, root, at, a);
    AncestorsAre(at, a);
  }

  lemma PutWritesCount(kv: Kv, root: string, key: string, e: Entry, build: bool)
    ensures |PutWrites(kv, root, key, e, build)| == PutRequests(kv, root, key, e, build)
  {
    TagOrderIs(Write(kv, Full(root, key), e), root, key, key);
  }

  lemma FullInjective(root: string, a: string, b: string)
    ensures Full(root, a) == Full(root, b) <==> a == b
  {
    ConcatCancel(root + "/", a, b);
  }

  lemma FullPrefix(root: string, a: string, b: string)
    ensures Full(root, a) <= Full(root, b) <==> a <= b
  {
    PrefixCancel(root + "/", a, b);
  }

  lemma TagKeysAre(kv: Kv, root: string, dirs: set<string>, a: string)
    ensures Full(root, a) in TagKeys(kv, root, dirs) <==>
            a in dirs && !IsTag(Lookup(kv, Full(root, a))) && Full(root, a) != ""
  {
    forall b ensures Full(root, a) == Full(root, b) <==> a == b { FullInjective(root, a, b); }
  }

  /** The tags that one more directory needs. */
  lemma TagKeysOneMore(kv: Kv, root: string, done: set<string>, dk: string)
    ensures TagKeys(kv, root, done + {dk}) ==
            TagKeys(kv, root, done) +
            if IsTag(Lookup(kv, Full(root, dk))) || Full(root, dk) == "" then {} else {Full(root, dk)}
  {
  }

  /** Tagging one more directory: what the loop body of `buildForDirectory` adds. */
  lemma TagOneMore(kv: Kv, root: string, done: set<string>, dk: string)
    ensures Tagged(kv, root, done + {dk}) ==
            if IsTag(Lookup(kv, Full(root, dk))) then Tagged(kv, root, done)
            else Write(Tagged(kv, root, done), Full(root, dk), TAG)
  {
    TagKeysOneMore(kv, root, done, dk);
    TagMore(kv, TagKeys(kv, root, done), Full(root, dk));
  }

  lemma TagMore(kv: Kv, fs: set<string>, f: string)
    ensures kv + (map g | g in fs + {f} :: TAG) == (kv + map g | g in fs :: TAG)[f := TAG]
  {
  }

  /** A directory not yet visited still reads as it did. */
  lemma NotYetTagged(kv: Kv, root: string, done: set<string>, dk: string)
    requires dk !in done
    ensures Lookup(Tagged(kv, root, done), Full(root, dk)) == Lookup(kv, Full(root, dk))
  {
    TagKeysAre(kv, root, done, dk);
  }
}
