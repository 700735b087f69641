/** Strings as the stores see them: Go's `strings.Split`, `strings.Join`,
    `strings.EqualFold`, the `%d` verb, and prefixes. */
module Text {

  // ---------- case folding ----------

  /** `strings.EqualFold`. Go compares rune by rune under simple case folding,
      which is equality of canonical representatives; `fold` picks them. */
  predicate EqualFold(fold: char -> char, s: string, t: string) {
    |s| == |t| && forall i | 0 <= i < |s| :: fold(s[i]) == fold(t[i])
  }

  function AsciiLower(c: char): char {
    if 'A' <= c <= 'Z' then (c as int + 32) as char else c
  }

  /** The folding merges no two different characters of the two strings. */
  ghost predicate TellsApart(fold: char -> char, s: string, t: string) {
    forall i, j | 0 <= i < |s| && 0 <= j < |t| && s[i] != t[j] :: fold(s[i]) != fold(t[j])
  }

  /** Where nothing is merged, equal up to case is equal. */
  lemma EqualFoldExact(fold: char -> char, s: string, t: string)
    requires TellsApart(fold, s, t)
    ensures EqualFold(fold, s, t) <==> s == t
  {
    if EqualFold(fold, s, t) {
      forall i | 0 <= i < |s| ensures s[i] == t[i] { assert fold(s[i]) == fold(t[i]); }
    }
  }

  /** And a character counts as much as any other with the same fold. */
  lemma EqualFoldSwap(fold: char -> char, s: string, t: string, i: nat, c: char)
    requires i < |t| && fold(c) == fold(t[i])
    ensures EqualFold(fold, s, t[i := c]) <==> EqualFold(fold, s, t)
  {
    assert |t[i := c]| == |t|;
    assert forall k | 0 <= k < |t| :: fold(t[i := c][k]) == fold(t[k]);
  }

  /** The two cases of one ASCII letter. */
  predicate OtherCase(c: char, d: char) {
    || ('A' <= c <= 'Z' && d as int == c as int + 32)
    || ('A' <= d <= 'Z' && c as int == d as int + 32)
  }

  lemma AsciiFoldsAlike(c: char, d: char)
    ensures AsciiLower(c) == AsciiLower(d) <==> c == d || OtherCase(c, d)
  {
  }

  // ---------- paths ----------

  /** Position of the last '/', or -1. */
  function LastSlash(s: string): (i: int)
    ensures -1 <= i < |s|
    ensures i >= 0 ==> s[i] == '/'
    ensures forall j | i < j < |s| :: s[j] != '/'
  {
    if s == "" then -1
    else if s[|s| - 1] == '/' then |s| - 1
    else LastSlash(s[..|s| - 1])
  }

  /** `strings.Split(s, "/")`: cut at every '/'; the empty string is one empty part. */
  function Split(s: string): (parts: seq<string>)
    ensures parts != []
    decreases |s|
  {
    var i := LastSlash(s);
    if i < 0 then [s] else Split(s[..i]) + [s[i + 1..]]
  }

  /** `strings.Join(parts, "/")`. */
  function Join(parts: seq<string>): string {
    if parts == [] then ""
    else if |parts| == 1 then parts[0]
    else Join(parts[..|parts| - 1]) + "/" + parts[|parts| - 1]
  }

  lemma {:induction false} JoinSplit(s: string)
    ensures Join(Split(s)) == s
    ensures forall p | p in Split(s) :: '/' !in p
    decreases |s|
  {
    var i := LastSlash(s);
    if i >= 0 {
      JoinSplit(s[..i]);
      var parts := Split(s[..i]) + [s[i + 1..]];
      assert parts[..|parts| - 1] == Split(s[..i]);
      assert s == s[..i] + "/" + s[i + 1..];
    }
  }

  /** `a` is a proper ancestor directory of the path `k`. */
  predicate IsAncestor(a: string, k: string) {
    a + "/" <= k
  }

  /** The proper ancestors of a path: what stands before each of its '/'. */
  function Ancestors(k: string): set<string> {
    set i | 0 <= i < |k| && k[i] == '/' :: k[..i]
  }

  lemma AncestorsAre(k: string, a: string)
    ensures a in Ancestors(k) <==> IsAncestor(a, k)
  {
    if a in Ancestors(k) {
      var i :| 0 <= i < |k| && k[i] == '/' && a == k[..i];
      assert a + "/" == k[..i + 1];
    }
    if IsAncestor(a, k) {
      var i := |a|;
      assert k[..i + 1] == a + "/" && (a + "/")[i] == '/';
      assert k[i] == k[..i + 1][i] && a == k[..i + 1][..i] == k[..i];
    }
  }

  lemma AncestorOfAncestor(a: string, b: string, c: string)
    requires IsAncestor(a, b) && IsAncestor(b, c)
    ensures IsAncestor(a, c)
  {
  }

  /** Ancestors, peeled from the deepest one. */
  lemma AncestorsPeel(k: string)
    ensures LastSlash(k) < 0 ==> Ancestors(k) == {}
    ensures LastSlash(k) >= 0 ==> Ancestors(k) == Ancestors(k[..LastSlash(k)]) + {k[..LastSlash(k)]}
    ensures LastSlash(k) >= 0 ==> k[..LastSlash(k)] !in Ancestors(k[..LastSlash(k)])
  {
    var n := LastSlash(k);
    if n >= 0 {
      var p := k[..n];
      forall a ensures a in Ancestors(k) <==> a in Ancestors(p) + {p} {
        if a in Ancestors(k) {
          var i :| 0 <= i < |k| && k[i] == '/' && a == k[..i];
          if i < n { assert p[i] == '/' && a == p[..i]; }
        }
        if a in Ancestors(p) {
          var i :| 0 <= i < |p| && p[i] == '/' && a == p[..i];
          assert k[i] == '/' && a == k[..i];
        }
        if a == p { assert k[n] == '/'; }
      }
    }
  }

  /** The parts of a path but the last. */
  function DirParts(k: string): seq<string> {
    Split(k)[..|Split(k)| - 1]
  }

  /** Joined, they name the deepest ancestor, whose own ancestors are the others. */
  lemma DirPartsPeel(k: string)
    ensures DirParts(k) == [] ==> Ancestors(k) == {}
    ensures DirParts(k) != [] ==>
              var p := Join(DirParts(k));
              && DirParts(k)[..|DirParts(k)| - 1] == DirParts(p)
              && p !in Ancestors(p) && Ancestors(k) == Ancestors(p) + {p}
  {
    AncestorsPeel(k);
    if LastSlash(k) >= 0 {
      JoinSplit(k[..LastSlash(k)]);
      assert DirParts(k) == Split(k[..LastSlash(k)]);
    }
  }

  /** It is what stands before the last '/'. */
  lemma DirPartsParent(k: string)
    ensures DirParts(k) == [] <==> LastSlash(k) < 0
    ensures DirParts(k) != [] ==> Join(DirParts(k)) == k[..LastSlash(k)]
  {
    if LastSlash(k) >= 0 {
      JoinSplit(k[..LastSlash(k)]);
      assert DirParts(k) == Split(k[..LastSlash(k)]);
    }
  }

  function CountSlashes(k: string): nat {
    if k == "" then 0 else CountSlashes(k[..|k| - 1]) + (if k[|k| - 1] == '/' then 1 else 0)
  }

  lemma {:induction false} AncestorCount(k: string)
    ensures |Ancestors(k)| == CountSlashes(k)
    decreases |k|
  {
    if k == "" {
      assert Ancestors(k) == {};
    } else {
      var p := k[..|k| - 1];
      AncestorCount(p);
      forall a ensures a in Ancestors(k) <==> a in Ancestors(p) || (k[|k| - 1] == '/' && a == p) {
        if a in Ancestors(k) {
          var i :| 0 <= i < |k| && k[i] == '/' && a == k[..i];
          if i < |p| { assert p[i] == '/' && a == p[..i]; }
        }
        if a in Ancestors(p) {
          var i :| 0 <= i < |p| && p[i] == '/' && a == p[..i];
          assert k[i] == '/' && a == k[..i];
        }
      }
      assert p !in Ancestors(p);
      assert Ancestors(k) == if k[|k| - 1] == '/' then Ancestors(p) + {p} else Ancestors(p);
    }
  }

  // ---------- fields ----------

  /** What stands between the separators. */
  function Fields(s: string, sep: char): seq<string> {
    if sep in s then
      var i := IndexOf(s, sep);
      [s[..i]] + Fields(s[i + 1..], sep)
    else [s]
  }

  function IndexOf(s: string, c: char): (i: nat)
    requires c in s
    ensures i < |s| && s[i] == c && c !in s[..i]
  {
    if s[0] == c then 0 else 1 + IndexOf(s[1..], c)
  }

  lemma NotBefore(s: string, i: nat, j: nat, c: char)
    requires i < |s| && j <= |s| && s[i] == c && c !in s[..j]
    ensures i >= j
  {
    forall k | 0 <= k < j ensures s[k] != c { assert s[..j][k] == s[k]; }
  }

  lemma FieldsOf(x: string, sep: char, rest: string)
    requires sep !in x
    ensures Fields(x + ([sep] + rest), sep) == [x] + Fields(rest, sep)
  {
    var s := x + ([sep] + rest);
    assert s[|x|] == sep;
    var i := IndexOf(s, sep);
    assert s[..|x|] == x && s[i] == sep;
    NotBefore(s, i, |x|, sep);
    NotBefore(s, |x|, i, sep);
    assert s[..i] == x && s[i + 1..] == rest;
  }

  // ---------- prefixes ----------

  lemma PrefixCancel(a: string, b: string, c: string)
    ensures a + b <= a + c <==> b <= c
  {
    if a + b <= a + c {
      assert b == (a + b)[|a|..] && c == (a + c)[|a|..];
      assert (a + c)[..|a + b|] == a + b;
      assert c[..|b|] == (a + c)[|a|..][..|b|] == (a + c)[..|a + b|][|a|..];
    }
    if b <= c {
      assert a + c == (a + b) + c[|b|..];
    }
  }

  lemma ConcatCancel(a: string, b: string, c: string)
    ensures a + b == a + c <==> b == c
  {
    if a + b == a + c {
      assert b == (a + b)[|a|..] && c == (a + c)[|a|..];
    }
  }

  /** Two prefixes of one string are comparable. */
  lemma PrefixesNest(p: string, q: string, s: string)
    requires p <= s && q <= s
    ensures p <= q || q <= p
  {
  }
}
