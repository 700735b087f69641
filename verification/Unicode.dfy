/** The \uXXXX expander (kvltool/tool.go) and the printer it undoes (etcd/core.go:278-288). */
module Unicode {
  import opened Utf8

  const BACKSLASH: Byte := 92
  const LETTER_U: Byte := 117

  predicate IsHex(b: int) {
    48 <= b <= 57 || 97 <= b <= 102 || 65 <= b <= 70
  }

  function HexValue(b: int): (v: int)
    requires IsHex(b)
    ensures 0 <= v < 16
  {
    if b <= 57 then b - 48 else if b >= 97 then b - 87 else b - 55
  }

  /** The expression `\\u[0-9a-fA-F]{4}` at position `i`, over bytes or over code points. */
  predicate MatchAt(b: seq<int>, i: nat) {
    && i + 6 <= |b| && b[i] == BACKSLASH && b[i + 1] == LETTER_U
    && IsHex(b[i + 2]) && IsHex(b[i + 3]) && IsHex(b[i + 4]) && IsHex(b[i + 5])
  }

  function CodeAt(b: seq<int>, i: nat): (r: int)
    requires MatchAt(b, i)
    ensures 0 <= r <= 0xFFFF
  {
    HexValue(b[i + 2]) * 0x1000 + HexValue(b[i + 3]) * 0x100 + HexValue(b[i + 4]) * 0x10 + HexValue(b[i + 5])
  }

  /** A panic is `make([]byte, -1)`: a surrogate has no encoding. */
  datatype Expanded<T> = Ok(text: seq<T>) | Panic

  function Prepend<T>(front: seq<T>, rest: Expanded<T>): Expanded<T> {
    if rest.Panic? then Panic else Ok(front + rest.text)
  }

  /** `reFindU.ReplaceAllFunc(line, expandUnicodeRune)`: leftmost matches, left to right. */
  function Expand(line: seq<Byte>): Expanded<Byte> {
    if line == [] then Ok([])
    else if MatchAt(line, 0) then
      if IsSurrogate(CodeAt(line, 0)) then Panic else Prepend(Encode(CodeAt(line, 0)), Expand(line[6..]))
    else Prepend([line[0]], Expand(line[1..]))
  }

  /** `strconv.ParseInt(text, 16, 32)` on hex digits. */
  function ParseHex(text: seq<Byte>): (n: nat)
    requires forall i | 0 <= i < |text| :: IsHex(text[i])
  {
    if text == [] then 0 else 0x10 * ParseHex(text[..|text| - 1]) + HexValue(text[|text| - 1])
  }

  lemma ParseFour(esc: seq<Byte>)
    requires |esc| == 6 && MatchAt(esc, 0)
    ensures ParseHex(esc[2..]) == CodeAt(esc, 0)
  {
    var t := esc[2..];
    assert t[..3][..2] == t[..2] && t[..2][..1] == t[..1] && t[..1][..0] == [];
    assert ParseHex(t[..1]) == HexValue(t[0]);
    assert ParseHex(t[..2]) == 0x10 * ParseHex(t[..1]) + HexValue(t[1]);
    assert ParseHex(t[..3]) == 0x10 * ParseHex(t[..2]) + HexValue(t[2]);
  }

  const LOWER_DIGITS := "0123456789abcdef"
  const UPPER_DIGITS := "0123456789ABCDEF"

  /** `b` is the hexadecimal digit of `v`, in either case. */
  predicate IsDigit(b: int, v: nat)
    requires v < 16
  {
    b == LOWER_DIGITS[v] as int || b == UPPER_DIGITS[v] as int
  }

  lemma DigitIsHex(b: int, v: nat)
    requires v < 16 && IsDigit(b, v)
    ensures IsHex(b) && HexValue(b) == v
  {
  }

  lemma HexIsDigit(b: int)
    requires IsHex(b)
    ensures IsDigit(b, HexValue(b))
  {
  }

  /** `esc` is "\u" and these four digits, in either case. */
  predicate SpellsEscape(esc: seq<int>, x: nat, y: nat, z: nat, w: nat)
    requires x < 16 && y < 16 && z < 16 && w < 16
  {
    && |esc| == 6 && esc[0] == '\\' as int && esc[1] == 'u' as int
    && IsDigit(esc[2], x) && IsDigit(esc[3], y) && IsDigit(esc[4], z) && IsDigit(esc[5], w)
  }

  /** Such an escape, and no other text, is a match. */
  lemma MatchesAreSpelled(esc: seq<int>)
    requires |esc| == 6
    ensures MatchAt(esc, 0) ==>
              SpellsEscape(esc, HexValue(esc[2]), HexValue(esc[3]), HexValue(esc[4]), HexValue(esc[5]))
  {
    if MatchAt(esc, 0) {
      HexIsDigit(esc[2]);
      HexIsDigit(esc[3]);
      HexIsDigit(esc[4]);
      HexIsDigit(esc[5]);
    }
  }

  lemma SpelledMatches(esc: seq<int>, x: nat, y: nat, z: nat, w: nat)
    requires x < 16 && y < 16 && z < 16 && w < 16 && SpellsEscape(esc, x, y, z, w)
    ensures MatchAt(esc, 0) && CodeAt(esc, 0) == x * 0x1000 + y * 0x100 + z * 0x10 + w
  {
    DigitIsHex(esc[2], x);
    DigitIsHex(esc[3], y);
    DigitIsHex(esc[4], z);
    DigitIsHex(esc[5], w);
  }

  /** An escape in either case of its digits expands to the character whose code it spells,
      and what follows is expanded by itself. */
  lemma EscapeExpands(esc: seq<Byte>, rest: seq<Byte>, x: nat, y: nat, z: nat, w: nat)
    requires x < 16 && y < 16 && z < 16 && w < 16 && SpellsEscape(esc, x, y, z, w)
    ensures var r := x * 0x1000 + y * 0x100 + z * 0x10 + w;
            if IsSurrogate(r) then Expand(esc + rest).Panic?
            else Expand(esc + rest) == Prepend(Encode(r), Expand(rest))
  {
    SpelledMatches(esc, x, y, z, w);
    var b := esc + rest;
    assert b[..6] == esc && b[6..] == rest;
    MatchInFront(esc, rest);
  }

  lemma MatchInFront(esc: seq<int>, rest: seq<int>)
    requires |esc| == 6 && MatchAt(esc, 0)
    ensures MatchAt(esc + rest, 0) && CodeAt(esc + rest, 0) == CodeAt(esc, 0)
  {
  }

  /** `utf8.EncodeRune` into a buffer of the right size. */
  method EncodeRune(buffer: array<Byte>, r: Rune)
    requires buffer.Length == RuneLen(r)
    modifies buffer
    ensures buffer[..] == Encode(r)
  {
    if r < 0x80 {
      buffer[0] := r;
    } else if r < 0x800 {
      buffer[0], buffer[1] := 0xC0 + r / 0x40, 0x80 + r % 0x40;
    } else if r < 0x10000 {
      buffer[0], buffer[1], buffer[2] := 0xE0 + r / 0x1000, 0x80 + r / 0x40 % 0x40, 0x80 + r % 0x40;
    } else {
      buffer[0], buffer[1] := 0xF0 + r / 0x40000, 0x80 + r / 0x1000 % 0x40;
      buffer[2], buffer[3] := 0x80 + r / 0x40 % 0x40, 0x80 + r % 0x40;
    }
  }

  /** One escape becomes the character it names: reading the result back gives its code point. */
  method ExpandUnicodeRune(esc: seq<Byte>) returns (repr: Expanded<Byte>)
    requires |esc| == 6 && MatchAt(esc, 0)
    ensures repr.Panic? <==> IsSurrogate(CodeAt(esc, 0))
    ensures repr.Ok? ==>
              && 1 <= |repr.text| <= 3 && FrontLen(repr.text) == |repr.text|
              && FrontRune(repr.text) == CodeAt(esc, 0)
    ensures repr == Expand(esc)
  {
    ParseFour(esc);
    var r := ParseHex(esc[2..]);
    var n := RuneLen(r);
    assert Expand(esc[6..]) == Ok([]);
    if n < 0 { return Panic; }
    var buffer := new Byte[n];
    EncodeRune(buffer, r);
    repr := Ok(buffer[..]);
    FrontOfEncoded(r, []);
    assert Encode(r) + [] == Encode(r);
  }

  // ---------- the expander ----------

  lemma MatchDrop(b: seq<int>, k: nat, i: nat)
    requires k <= |b|
    ensures MatchAt(b[k..], i) <==> MatchAt(b, k + i)
    ensures MatchAt(b, k + i) ==> CodeAt(b[k..], i) == CodeAt(b, k + i)
  {
  }

  /** Matches never overlap, so the leftmost ones are all there are. */
  lemma NoOverlap(b: seq<int>, i: nat, j: nat)
    requires MatchAt(b, i) && i < j < i + 6
    ensures !MatchAt(b, j)
  {
  }

  // ---------- expanding chosen escapes ----------

  /** The expander confined to the escapes that begin at the positions in `chosen`. */
  function ExpandChosen(b: seq<Byte>, from: nat, chosen: set<nat>): Expanded<Byte>
    requires from <= |b|
    decreases |b| - from
  {
    if from == |b| then Ok([])
    else if from in chosen && MatchAt(b, from) then
      if IsSurrogate(CodeAt(b, from)) then Panic
      else Prepend(Encode(CodeAt(b, from)), ExpandChosen(b, from + 6, chosen))
    else Prepend([b[from]], ExpandChosen(b, from + 1, chosen))
  }

  ghost predicate SurrogateChosen(b: seq<int>, from: nat, chosen: set<nat>) {
    exists i: nat :: i >= from && i in chosen && MatchAt(b, i) && IsSurrogate(CodeAt(b, i))
  }

  lemma {:induction false} ChosenPanics(b: seq<Byte>, from: nat, chosen: set<nat>)
    requires from <= |b|
    ensures ExpandChosen(b, from, chosen).Panic? <==> SurrogateChosen(b, from, chosen)
    decreases |b| - from
  {
    if from < |b| {
      var k := if from in chosen && MatchAt(b, from) then 6 else 1;
      ChosenPanics(b, from + k, chosen);
      if i: nat :| i >= from && i in chosen && MatchAt(b, i) && IsSurrogate(CodeAt(b, i)) {
        if k == 6 && from < i < from + 6 { NoOverlap(b, from, i); }
      }
    }
  }

  /** What the chosen escapes save: each shrinks from six bytes to its encoding. */
  function Saved(b: seq<int>, from: nat, chosen: set<nat>): nat
    decreases if from < |b| then |b| - from else 0
  {
    if from >= |b| then 0
    else
      Saved(b, from + 1, chosen) +
      if from in chosen && MatchAt(b, from) && !IsSurrogate(CodeAt(b, from)) then 6 - RuneLen(CodeAt(b, from)) else 0
  }

  lemma {:induction false} NothingSaved(b: seq<int>, from: nat, end: nat, chosen: set<nat>)
    requires from <= end <= |b| && forall i: nat | from <= i < end :: !MatchAt(b, i)
    ensures Saved(b, from, chosen) == Saved(b, end, chosen)
    decreases end - from
  {
    if from < end { NothingSaved(b, from + 1, end, chosen); }
  }

  lemma {:induction false} ChosenLength(b: seq<Byte>, from: nat, chosen: set<nat>)
    requires from <= |b|
    ensures var x := ExpandChosen(b, from, chosen); x.Ok? ==> from + |x.text| + Saved(b, from, chosen) == |b|
    decreases |b| - from
  {
    if from < |b| {
      if from in chosen && MatchAt(b, from) {
        ChosenLength(b, from + 6, chosen);
        forall i: nat | from + 1 <= i < from + 6 ensures !MatchAt(b, i) { NoOverlap(b, from, i); }
        NothingSaved(b, from + 1, from + 6, chosen);
      } else {
        ChosenLength(b, from + 1, chosen);
      }
    }
  }

  lemma PrependTwice<T>(x: seq<T>, y: seq<T>, rest: Expanded<T>)
    ensures Prepend(x, Prepend(y, rest)) == Prepend(x + y, rest)
  {
  }

  /** Text without a chosen escape is copied. */
  lemma {:induction false} ChosenCopies(b: seq<Byte>, from: nat, end: nat, chosen: set<nat>)
    requires from <= end <= |b| && forall i: nat | from <= i < end :: i in chosen ==> !MatchAt(b, i)
    ensures ExpandChosen(b, from, chosen) == Prepend(b[from..end], ExpandChosen(b, end, chosen))
    decreases end - from
  {
    if from == end {
      NothingPrepended(ExpandChosen(b, from, chosen));
    } else {
      ChosenCopies(b, from + 1, end, chosen);
      assert [b[from]] + b[from + 1..end] == b[from..end];
      PrependTwice([b[from]], b[from + 1..end], ExpandChosen(b, end, chosen));
    }
  }

  lemma NothingPrepended<T>(x: Expanded<T>)
    ensures Prepend([], x) == x
  {
    if x.Ok? { assert [] + x.text == x.text; }
  }

  lemma ValidAsciiDrop(b: seq<Byte>, k: nat)
    requires Valid(b) && k <= |b| && forall i | 0 <= i < k :: b[i] < 0x80
    ensures Valid(b[k..])
    decreases k
  {
    if k == 0 {
      assert b[0..] == b;
    } else {
      ValidAsciiDrop(b[1..], k - 1);
      assert b[1..][k - 1..] == b[k..];
    }
  }

  lemma EscapeDropped(b: seq<Byte>, from: nat)
    requires MatchAt(b, from) && Valid(b[from..])
    ensures Valid(b[from + 6..])
  {
    ValidAsciiDrop(b[from..], 6);
    assert b[from..][6..] == b[from + 6..];
  }

  lemma CharacterDropped(b: seq<Byte>, from: nat)
    requires from < |b| && Valid(b[from..])
    ensures var n := FrontLen(b[from..]);
            && n > 0 && from + n <= |b| && Valid(b[from + n..]) && b[from..][..n] == b[from..from + n]
  {
    var n := FrontLen(b[from..]);
    assert b[from..][n..] == b[from + n..];
  }

  lemma NoEscapeInside(b: seq<Byte>, from: nat, i: nat)
    requires from < i < |b| && i < from + FrontLen(b[from..])
    ensures !MatchAt(b, i)
  {
    NoAsciiInside(b[from..], i - from);
  }

  lemma CharacterCopied(b: seq<Byte>, from: nat, chosen: set<nat>)
    requires from < |b| && Valid(b[from..]) && !(from in chosen && MatchAt(b, from))
    ensures var n := FrontLen(b[from..]);
            && n > 0 && from + n <= |b| && Valid(b[from + n..])
            && ExpandChosen(b, from, chosen) == Prepend(b[from..][..n], ExpandChosen(b, from + n, chosen))
  {
    CharacterDropped(b, from);
    var n := FrontLen(b[from..]);
    forall i: nat | from <= i < from + n ensures i in chosen ==> !MatchAt(b, i) {
      if i > from { NoEscapeInside(b, from, i); }
    }
    ChosenCopies(b, from, from + n, chosen);
  }

  predicate ValidIfOk(x: Expanded<Byte>) {
    x.Ok? ==> Valid(x.text)
  }

  lemma EscapeKeepsValid(r: Rune, x: Expanded<Byte>)
    requires ValidIfOk(x)
    ensures ValidIfOk(Prepend(Encode(r), x))
  {
    if x.Ok? { ValidPrepend(r, x.text); }
  }

  lemma CharacterKeepsValid(c: seq<Byte>, x: Expanded<Byte>)
    requires FrontLen(c) > 0 && ValidIfOk(x)
    ensures ValidIfOk(Prepend(c[..FrontLen(c)], x))
  {
    if x.Ok? { FrontKept(c, x.text); }
  }

  /** Valid UTF-8 stays valid whichever of its escapes are expanded: only whole ASCII escapes
      are replaced, each by a whole character. */
  lemma {:induction false} ChosenKeepsValid(b: seq<Byte>, from: nat, chosen: set<nat>)
    requires from <= |b| && Valid(b[from..])
    ensures ValidIfOk(ExpandChosen(b, from, chosen))
    decreases |b| - from
  {
    if from < |b| {
      if from in chosen && MatchAt(b, from) {
        EscapeDropped(b, from);
        ChosenKeepsValid(b, from + 6, chosen);
        if !IsSurrogate(CodeAt(b, from)) {
          EscapeKeepsValid(CodeAt(b, from), ExpandChosen(b, from + 6, chosen));
        }
      } else {
        CharacterCopied(b, from, chosen);
        var n := FrontLen(b[from..]);
        ChosenKeepsValid(b, from + n, chosen);
        CharacterKeepsValid(b[from..], ExpandChosen(b, from + n, chosen));
      }
    }
  }

  lemma FrontKept(b: seq<Byte>, rest: seq<Byte>)
    requires FrontLen(b) > 0 && Valid(rest)
    ensures Valid(b[..FrontLen(b)] + rest)
  {
  }

  // ---------- expanding every escape ----------

  /** Where the escapes of a text begin. */
  function Escapes(b: seq<int>): set<nat> {
    set i: nat | i < |b| && MatchAt(b, i)
  }

  lemma {:induction false} ExpandIsChosen(b: seq<Byte>, from: nat)
    requires from <= |b|
    ensures Expand(b[from..]) == ExpandChosen(b, from, Escapes(b))
    decreases |b| - from
  {
    if from < |b| {
      MatchDrop(b, from, 0);
      if MatchAt(b, from) {
        ExpandIsChosen(b, from + 6);
        assert b[from..][6..] == b[from + 6..];
      } else {
        ExpandIsChosen(b, from + 1);
        assert b[from..][1..] == b[from + 1..];
      }
    }
  }

  /** The expander panics exactly on a text with an escape that names a surrogate. */
  lemma PanicsOnSurrogates(b: seq<Byte>)
    ensures Expand(b).Panic? <==> exists i: nat :: MatchAt(b, i) && IsSurrogate(CodeAt(b, i))
  {
    assert b[0..] == b;
    ExpandIsChosen(b, 0);
    ChosenPanics(b, 0, Escapes(b));
  }

  lemma ExpandedLength(b: seq<Byte>)
    ensures Expand(b).Ok? ==> |Expand(b).text| + Saved(b, 0, Escapes(b)) == |b|
  {
    assert b[0..] == b;
    ExpandIsChosen(b, 0);
    ChosenLength(b, 0, Escapes(b));
  }

  /** Valid UTF-8 expands to valid UTF-8. */
  lemma ExpandKeepsValid(b: seq<Byte>)
    requires Valid(b)
    ensures Expand(b).Ok? ==> Valid(Expand(b).text)
  {
    assert b[0..] == b;
    ExpandIsChosen(b, 0);
    ChosenKeepsValid(b, 0, Escapes(b));
  }

  /** Text with no match at its front is copied. */
  lemma CopyFront(b: seq<Byte>, k: nat)
    requires k <= |b| && forall i | 0 <= i < k :: !MatchAt(b, i)
    ensures Expand(b) == Prepend(b[..k], Expand(b[k..]))
  {
    assert b[0..] == b && b[0..k] == b[..k];
    ExpandIsChosen(b, 0);
    ExpandIsChosen(b, k);
    ChosenCopies(b, 0, k, Escapes(b));
  }

  // ---------- the outer selection ----------

  function Both<T>(x: Expanded<T>, y: Expanded<T>): Expanded<T> {
    if x.Panic? || y.Panic? then Panic else Ok(x.text + y.text)
  }

  type Span = (nat, nat)

  /** UnescapeUnicode for whatever disjoint spans, in order, the outer expression selects. */
  function Unescape(b: seq<Byte>, from: nat, spans: seq<Span>): Expanded<Byte>
    requires Spans(b, from, spans)
    decreases |spans|
  {
    if spans == [] then Ok(b[from..])
    else
      var (lo, hi) := spans[0];
      Both(Ok(b[from..lo]), Both(Expand(b[lo..hi]), Unescape(b, hi, spans[1..])))
  }

  predicate Spans(b: seq<Byte>, from: nat, spans: seq<Span>)
    decreases |spans|
  {
    if spans == [] then from <= |b|
    else from <= spans[0].0 <= spans[0].1 <= |b| && Spans(b, spans[0].1, spans[1..])
  }

  /** An escape at `i` lies within a span. */
  predicate InSpan(i: nat, spans: seq<Span>) {
    exists s :: s in spans && s.0 <= i && i + 6 <= s.1
  }

  /** Where the escapes within the spans begin. */
  function Selected(b: seq<Byte>, spans: seq<Span>): set<nat> {
    set i: nat | i < |b| && MatchAt(b, i) && InSpan(i, spans)
  }

  lemma BothPrepend<T>(front: seq<T>, x: Expanded<T>, y: Expanded<T>)
    ensures Both(Prepend(front, x), y) == Prepend(front, Both(x, y))
    ensures Both(Ok(front), y) == Prepend(front, y)
  {
  }

  lemma NothingBefore<T>(y: Expanded<T>)
    ensures Both(Ok([]), y) == y
  {
    if y.Ok? { assert [] + y.text == y.text; }
  }

  lemma {:induction false} SpansInside(b: seq<Byte>, from: nat, spans: seq<Span>)
    requires Spans(b, from, spans)
    ensures from <= |b| && forall s | s in spans :: from <= s.0
    decreases |spans|
  {
    if spans != [] {
      SpansInside(b, spans[0].1, spans[1..]);
      forall s | s in spans ensures from <= s.0 {
        assert s == spans[0] || s in spans[1..];
      }
    }
  }

  /** Up to the end of a span, expanding it is expanding the escapes that end within it. */
  lemma {:induction false} OneSpan(b: seq<Byte>, from: nat, hi: nat, chosen: set<nat>)
    requires from <= hi <= |b|
    requires forall i: nat | from <= i < hi && MatchAt(b, i) :: i in chosen <==> i + 6 <= hi
    ensures ExpandChosen(b, from, chosen) == Both(Expand(b[from..hi]), ExpandChosen(b, hi, chosen))
    decreases hi - from
  {
    var span := b[from..hi];
    if from == hi {
      NothingBefore(ExpandChosen(b, hi, chosen));
    } else {
      assert MatchAt(span, 0) <==> MatchAt(b, from) && from + 6 <= hi;
      var k := if MatchAt(span, 0) then 6 else 1;
      assert span[k..] == b[from + k..hi];
      OneSpan(b, from + k, hi, chosen);
      if MatchAt(span, 0) {
        assert CodeAt(span, 0) == CodeAt(b, from);
      }
      var front := if MatchAt(span, 0) && !IsSurrogate(CodeAt(span, 0)) then Encode(CodeAt(span, 0)) else [span[0]];
      BothPrepend(front, Expand(span[k..]), ExpandChosen(b, hi, chosen));
    }
  }

  lemma FirstSpanOrLater(b: seq<Byte>, from: nat, spans: seq<Span>, i: nat)
    requires spans != [] && Spans(b, from, spans) && i >= from
    ensures i < spans[0].0 ==> !InSpan(i, spans)
    ensures spans[0].0 <= i < spans[0].1 ==> (InSpan(i, spans) <==> i + 6 <= spans[0].1)
    ensures spans[0].1 <= i ==> (InSpan(i, spans) <==> InSpan(i, spans[1..]))
  {
    SpansInside(b, spans[0].1, spans[1..]);
    assert spans[0] in spans;
    assert forall s | s in spans :: s == spans[0] || s in spans[1..];
    assert forall s | s in spans[1..] :: s in spans;
  }

  /** Unescaping expands exactly the escapes that lie within the spans. */
  lemma {:induction false} UnescapeIsChosen(b: seq<Byte>, from: nat, spans: seq<Span>, chosen: set<nat>)
    requires Spans(b, from, spans) && from <= |b|
    requires forall i: nat | i >= from && MatchAt(b, i) :: i in chosen <==> InSpan(i, spans)
    ensures Unescape(b, from, spans) == ExpandChosen(b, from, chosen)
    decreases |spans|
  {
    if spans == [] {
      ChosenCopies(b, from, |b|, chosen);
      assert b[from..|b|] == b[from..] && b[from..] + [] == b[from..];
    } else {
      var (lo, hi) := spans[0];
      SpansInside(b, hi, spans[1..]);
      forall i: nat | i >= from && MatchAt(b, i)
        ensures i < lo ==> i !in chosen
        ensures lo <= i < hi ==> (i in chosen <==> i + 6 <= hi)
        ensures hi <= i ==> (i in chosen <==> InSpan(i, spans[1..]))
      {
        FirstSpanOrLater(b, from, spans, i);
      }
      ChosenCopies(b, from, lo, chosen);
      OneSpan(b, lo, hi, chosen);
      UnescapeIsChosen(b, hi, spans[1..], chosen);
      BothPrepend(b[from..lo], Ok([]), ExpandChosen(b, lo, chosen));
    }
  }

  lemma UnescapeChooses(b: seq<Byte>, spans: seq<Span>)
    requires Spans(b, 0, spans)
    ensures Unescape(b, 0, spans) == ExpandChosen(b, 0, Selected(b, spans))
  {
    UnescapeIsChosen(b, 0, spans, Selected(b, spans));
  }

  /** An escape that names a surrogate, within a span. */
  ghost predicate SurrogateInSpan(b: seq<Byte>, spans: seq<Span>) {
    exists i: nat :: MatchAt(b, i) && InSpan(i, spans) && IsSurrogate(CodeAt(b, i))
  }

  /** Unescaping panics exactly if a span holds an escape that names a surrogate. */
  lemma UnescapePanics(b: seq<Byte>, spans: seq<Span>)
    requires Spans(b, 0, spans)
    ensures Unescape(b, 0, spans).Panic? <==> SurrogateInSpan(b, spans)
  {
    UnescapeChooses(b, spans);
    ChosenPanics(b, 0, Selected(b, spans));
    if i: nat :| MatchAt(b, i) && InSpan(i, spans) && IsSurrogate(CodeAt(b, i)) {
      assert i in Selected(b, spans);
    }
  }

  /** The output is shorter by what the escapes within the spans save. */
  lemma UnescapedLength(b: seq<Byte>, spans: seq<Span>)
    requires Spans(b, 0, spans)
    ensures Unescape(b, 0, spans).Ok? ==> |Unescape(b, 0, spans).text| + Saved(b, 0, Selected(b, spans)) == |b|
  {
    UnescapeChooses(b, spans);
    ChosenLength(b, 0, Selected(b, spans));
  }

  /** Valid UTF-8 stays valid, even when a span begins or ends inside a character. */
  lemma UnescapeKeepsValid(b: seq<Byte>, spans: seq<Span>)
    requires Spans(b, 0, spans) && Valid(b)
    ensures Unescape(b, 0, spans).Ok? ==> Valid(Unescape(b, 0, spans).text)
  {
    UnescapeChooses(b, spans);
    assert b[0..] == b;
    ChosenKeepsValid(b, 0, Selected(b, spans));
  }

  lemma {:induction false} FewerSaveLess(b: seq<Byte>, from: nat, some: set<nat>, all: set<nat>)
    requires from <= |b| && some <= all
    requires forall i: nat | i >= from && i in all && MatchAt(b, i) :: !IsSurrogate(CodeAt(b, i))
    ensures Saved(b, from, some) <= Saved(b, from, all)
    ensures (exists i: nat :: i >= from && i in all && i !in some && MatchAt(b, i)) ==>
              Saved(b, from, some) < Saved(b, from, all)
    decreases |b| - from
  {
    if from < |b| {
      FewerSaveLess(b, from + 1, some, all);
    }
  }

  lemma {:induction false} SameChoice(b: seq<Byte>, from: nat, some: set<nat>, all: set<nat>)
    requires from <= |b| && forall i: nat | i >= from && MatchAt(b, i) :: i in some <==> i in all
    ensures ExpandChosen(b, from, some) == ExpandChosen(b, from, all)
    decreases |b| - from
  {
    if from < |b| {
      SameChoice(b, if from in all && MatchAt(b, from) then from + 6 else from + 1, some, all);
    }
  }

  /** Every escape lies within a span. */
  ghost predicate Covers(b: seq<Byte>, spans: seq<Span>) {
    forall i: nat | MatchAt(b, i) :: InSpan(i, spans)
  }

  /** What the outer expression selects makes no difference exactly if it leaves no escape out,
      or selects one that panics anyway. */
  lemma SelectionMatters(b: seq<Byte>, spans: seq<Span>)
    requires Spans(b, 0, spans)
    ensures Unescape(b, 0, spans) == Expand(b) <==> Covers(b, spans) || SurrogateInSpan(b, spans)
  {
    var some, all := Selected(b, spans), Escapes(b);
    assert b[0..] == b;
    UnescapeChooses(b, spans);
    ExpandIsChosen(b, 0);
    UnescapePanics(b, spans);
    PanicsOnSurrogates(b);
    if Covers(b, spans) {
      SameChoice(b, 0, some, all);
    } else if !SurrogateInSpan(b, spans) && Expand(b).Ok? {
      var i: nat :| MatchAt(b, i) && !InSpan(i, spans);
      assert i in all && i !in some;
      ChosenLength(b, 0, some);
      ChosenLength(b, 0, all);
      FewerSaveLess(b, 0, some, all);
    }
  }

  // ---------- the printer ----------

  /** `unicode.IsControl`. */
  predicate IsControl(r: int) {
    0 <= r < 0x20 || 0x7F <= r < 0xA0
  }

  function HexDigit(v: int): Byte
    requires 0 <= v < 16
  {
    if v < 10 then 48 + v else 55 + v
  }

  /** `%04X` on a control character, behind `\u`. */
  function Escaped(r: int): seq<Byte>
    requires IsControl(r)
  {
    [BACKSLASH, LETTER_U, 48, 48, HexDigit(r / 16), HexDigit(r % 16)]
  }

  function Printed(r: Rune): seq<Byte> {
    if IsControl(r) then Escaped(r) else Encode(r)
  }

  function Print(s: seq<Rune>): seq<Byte> {
    if s == [] then [] else Printed(s[0]) + Print(s[1..])
  }

  /** `convert`: control characters are written as escapes into the buffer, others as they are. */
  method Convert(input: seq<Rune>) returns (buf: seq<Byte>)
    ensures buf == Print(input)
  {
    buf := [];
    assert input[0..] == input;
    for i := 0 to |input|
      invariant Print(input) == buf + Print(input[i..])
    {
      PrintFrom(input, i, buf);
      if IsControl(input[i]) {
        buf := buf + Escaped(input[i]);
      } else {
        buf := buf + Encode(input[i]);
      }
    }
    assert Print(input[|input|..]) == [];
  }

  lemma PrintFrom(s: seq<Rune>, i: nat, before: seq<Byte>)
    requires i < |s|
    ensures before + Print(s[i..]) == (before + Printed(s[i])) + Print(s[i + 1..])
  {
  }

  /** What the printed text shows. */
  function Shown(s: seq<Rune>): seq<Rune> {
    if s == [] then []
    else (if IsControl(s[0]) then Escaped(s[0]) else [s[0]]) + Shown(s[1..])
  }

  /** A control character is printed as its escape, with upper-case digits. */
  lemma EscapedSpells(r: Rune)
    requires r < 0x20 || 0x7F <= r < 0xA0
    ensures Print([r]) == Escaped(r) && SpellsEscape(Escaped(r), 0, 0, r / 16, r % 16)
    ensures Escaped(r)[4] == UPPER_DIGITS[r / 16] as int && Escaped(r)[5] == UPPER_DIGITS[r % 16] as int
  {
  }

  lemma EncodeOneMore(r: Rune, y: seq<Rune>)
    ensures EncodeAll([r] + y) == Encode(r) + EncodeAll(y)
  {
    assert ([r] + y)[1..] == y;
  }

  lemma {:induction false} EncodeAllAscii(x: seq<Byte>, y: seq<Rune>)
    requires forall i | 0 <= i < |x| :: x[i] < 0x80
    ensures EncodeAll(x + y) == x + EncodeAll(y)
    decreases |x|
  {
    if x == [] {
      assert x + y == y;
    } else {
      EncodeAllAscii(x[1..], y);
      EncodeOneMore(x[0], x[1..] + y);
      assert [x[0]] + (x[1..] + y) == x + y;
      Regroup([x[0]], x[1..], EncodeAll(y));
      assert [x[0]] + x[1..] == x;
    }
  }

  /** Printed text holds no control character. */
  lemma {:induction false} NoControlsPrinted(s: seq<Rune>)
    ensures Print(s) == EncodeAll(Shown(s))
    ensures forall r | r in Shown(s) :: !(r < 0x20 || 0x7F <= r < 0xA0)
    decreases |s|
  {
    if s != [] {
      NoControlsPrinted(s[1..]);
      if IsControl(s[0]) {
        EncodeAllAscii(Escaped(s[0]), Shown(s[1..]));
      } else {
        assert ([s[0]] + Shown(s[1..]))[1..] == Shown(s[1..]);
      }
    }
  }

  /** And text is printed as it is exactly if it holds none. */
  lemma {:induction false} PrintedAsIs(s: seq<Rune>)
    ensures |Print(s)| >= |EncodeAll(s)|
    ensures Print(s) == EncodeAll(s) <==> forall r | r in s :: !(r < 0x20 || 0x7F <= r < 0xA0)
    decreases |s|
  {
    if s != [] {
      PrintedAsIs(s[1..]);
      assert forall r :: r in s <==> r == s[0] || r in s[1..];
      if IsControl(s[0]) {
        assert |Print(s)| == 6 + |Print(s[1..])| && |EncodeAll(s)| == |Encode(s[0])| + |EncodeAll(s[1..])|;
        assert |Encode(s[0])| <= 2 && s[0] in s;
      } else {
        var e := Encode(s[0]);
        assert Print(s) == e + Print(s[1..]) && EncodeAll(s) == e + EncodeAll(s[1..]);
        assert Print(s)[|e|..] == Print(s[1..]) && EncodeAll(s)[|e|..] == EncodeAll(s[1..]);
      }
    }
  }

  /** The expander on code points: the escapes that a string spells out literally. */
  function ExpandRunes(s: seq<Rune>): Expanded<Rune> {
    if s == [] then Ok([])
    else if MatchAt(s, 0) then
      if IsSurrogate(CodeAt(s, 0)) then Panic else Prepend([CodeAt(s, 0)], ExpandRunes(s[6..]))
    else Prepend([s[0]], ExpandRunes(s[1..]))
  }

  function EncodeExpanded(x: Expanded<Rune>): Expanded<Byte> {
    if x.Panic? then Panic else Ok(EncodeAll(x.text))
  }

  lemma EncodePrepend(r: Rune, x: Expanded<Rune>)
    ensures EncodeExpanded(Prepend([r], x)) == Prepend(Encode(r), EncodeExpanded(x))
  {
  }

  /** A printed text that starts with an ASCII byte other than a backslash spells that character. */
  lemma AsciiFront(s: seq<Rune>)
    requires Print(s) != [] && Print(s)[0] < 0x80 && Print(s)[0] != BACKSLASH
    ensures s != [] && s[0] == Print(s)[0] && Print(s)[1..] == Print(s[1..])
  {
  }

  /** A match in printed text that starts with a printed backslash is literal. */
  lemma MatchIsLiteral(s: seq<Rune>)
    requires s != [] && s[0] == BACKSLASH && MatchAt(Print(s), 0)
    ensures MatchAt(s, 0)
  {
    var p := Print(s);
    var s1 := s[1..];
    assert p[1..] == Print(s1);
    AsciiFront(s1);
    AsciiFront(s1[1..]);
    AsciiFront(s1[1..][1..]);
    AsciiFront(s1[1..][1..][1..]);
    AsciiFront(s1[1..][1..][1..][1..]);
    assert p[1..][1..] == p[2..] && p[2..][1..] == p[3..] && p[3..][1..] == p[4..] && p[4..][1..] == p[5..];
    assert s1[1..] == s[2..] && s[2..][1..] == s[3..] && s[3..][1..] == s[4..] && s[4..][1..] == s[5..];
  }

  predicate PlainAscii(s: seq<Rune>) {
    forall i | 0 <= i < |s| :: 0x20 <= s[i] < 0x7F
  }

  /** Plain ASCII is printed as it is. */
  lemma {:induction false} LiteralPrints(x: seq<Rune>, y: seq<Rune>)
    requires PlainAscii(x)
    ensures Print(x + y) == x + Print(y)
    decreases |x|
  {
    if x == [] {
      assert x + y == y;
    } else {
      LiteralPrints(x[1..], y);
      assert (x + y)[1..] == x[1..] + y;
      assert Print(x + y) == [x[0]] + Print(x[1..] + y);
      Regroup([x[0]], x[1..], Print(y));
      assert [x[0]] + x[1..] == x;
    }
  }

  lemma Regroup<T>(x: seq<T>, y: seq<T>, z: seq<T>)
    ensures x + (y + z) == (x + y) + z
  {
  }

  lemma PrintedLiteral(s: seq<Rune>)
    requires MatchAt(s, 0)
    ensures MatchAt(Print(s), 0) && CodeAt(Print(s), 0) == CodeAt(s, 0) && Print(s)[6..] == Print(s[6..])
  {
    LiteralPrints(s[..6], s[6..]);
    assert s[..6] + s[6..] == s;
    assert forall i | 0 <= i < 6 :: Print(s)[i] == s[i];
  }

  lemma PrintedControl(s: seq<Rune>)
    requires s != [] && IsControl(s[0])
    ensures MatchAt(Print(s), 0) && CodeAt(Print(s), 0) == s[0] && Print(s)[6..] == Print(s[1..])
  {
  }

  lemma PrintedPlain(s: seq<Rune>)
    requires s != [] && !IsControl(s[0]) && !MatchAt(s, 0)
    ensures Expand(Print(s)) == Prepend(Encode(s[0]), Expand(Print(s[1..])))
  {
    var p, e := Print(s), Encode(s[0]);
    assert p == e + Print(s[1..]);
    forall i | 0 <= i < |e| ensures !MatchAt(p, i) {
      assert p[i] == e[i];
      if s[0] == BACKSLASH && MatchAt(p, 0) { MatchIsLiteral(s); }
    }
    CopyFront(p, |e|);
    assert p[..|e|] == e && p[|e|..] == Print(s[1..]);
  }

  /** Expanding printed text: what the printer escaped comes back, and what the string spelled
      out literally is expanded too. No escape combines with its surroundings. */
  lemma {:induction false} ExpandPrinted(s: seq<Rune>)
    ensures Expand(Print(s)) == EncodeExpanded(ExpandRunes(s))
    decreases |s|
  {
    if s != [] {
      if MatchAt(s, 0) {
        PrintedLiteral(s);
        ExpandPrinted(s[6..]);
        if !IsSurrogate(CodeAt(s, 0)) { EncodePrepend(CodeAt(s, 0), ExpandRunes(s[6..])); }
      } else {
        ExpandPrinted(s[1..]);
        EncodePrepend(s[0], ExpandRunes(s[1..]));
        if IsControl(s[0]) { PrintedControl(s); } else { PrintedPlain(s); }
      }
    }
  }

  ghost predicate HasLiteralEscape(s: seq<Rune>) {
    exists i: nat :: MatchAt(s, i)
  }

  lemma {:induction false} NothingLiteral(s: seq<Rune>)
    requires forall i: nat :: !MatchAt(s, i)
    ensures ExpandRunes(s) == Ok(s)
    decreases |s|
  {
    if s != [] {
      forall i: nat ensures !MatchAt(s[1..], i) { MatchDrop(s, 1, i); }
      NothingLiteral(s[1..]);
      assert [s[0]] + s[1..] == s;
    }
  }

  /** Each literal escape makes the encoded text shorter. */
  lemma {:induction false} LiteralEscapesShrink(s: seq<Rune>)
    requires ExpandRunes(s).Ok?
    ensures |EncodeAll(ExpandRunes(s).text)| <= |EncodeAll(s)|
    ensures HasLiteralEscape(s) ==> |EncodeAll(ExpandRunes(s).text)| < |EncodeAll(s)|
    decreases |s|
  {
    if s != [] {
      if MatchAt(s, 0) {
        LiteralEscapesShrink(s[6..]);
        SixBytes(s, 6);
        EncodePrepend(CodeAt(s, 0), ExpandRunes(s[6..]));
      } else {
        LiteralEscapesShrink(s[1..]);
        if HasLiteralEscape(s) { LiteralLater(s); }
        EncodePrepend(s[0], ExpandRunes(s[1..]));
      }
    }
  }

  lemma LiteralLater(s: seq<Rune>)
    requires s != [] && !MatchAt(s, 0) && HasLiteralEscape(s)
    ensures HasLiteralEscape(s[1..])
  {
    var i: nat :| MatchAt(s, i);
    MatchDrop(s, 1, i - 1);
  }

  lemma {:induction false} SixBytes(s: seq<Rune>, k: nat)
    requires k <= |s| && forall i | 0 <= i < k :: s[i] < 0x80
    ensures |EncodeAll(s)| == k + |EncodeAll(s[k..])|
    decreases k
  {
    if k == 0 {
      assert s[0..] == s;
    } else {
      SixBytes(s[1..], k - 1);
      assert s[1..][k - 1..] == s[k..];
    }
  }

  /** Printing and expanding gives the string back exactly when it does not itself contain
      a literal escape. */
  lemma RoundTrip(s: seq<Rune>)
    ensures Expand(Print(s)) == Ok(EncodeAll(s)) <==> !HasLiteralEscape(s)
  {
    ExpandPrinted(s);
    if !HasLiteralEscape(s) {
      NothingLiteral(s);
    } else if ExpandRunes(s).Ok? {
      LiteralEscapesShrink(s);
    }
  }
}
