/**
 * The JavaScript built-ins that the two dashboard components rely on, given
 * the meaning ECMAScript gives them:
 *  - `Array.prototype.indexOf` (strict equality, -1 when absent),
 *  - `Array.prototype.splice(start, 1)` with a possibly negative start,
 *  - `String.prototype.split('/')`, with `Join` as its inverse,
 *  - `String.prototype.trim`.
 */
module JsBuiltins {

  // ---------------------------------------------------------------------------
  // Array.prototype.indexOf and Array.prototype.splice(start, 1)
  // ---------------------------------------------------------------------------

  /** `s.indexOf(x)`: the first index holding `x`, or -1 when there is none. */
  function IndexOf<T(==)>(s: seq<T>, x: T): (r: int)
    ensures -1 <= r < |s|
    ensures r == -1 <==> x !in s
    ensures 0 <= r ==> s[r] == x && x !in s[..r]
  {
    if s == [] then -1
    else if s[0] == x then 0
    else
      var i := IndexOf(s[1..], x);
      if i == -1 then -1
      else
        assert s[..i + 1] == [s[0]] + s[1..][..i];
        i + 1
  }

  /**
   * The position `splice` actually starts at: a negative `start` counts from
   * the end (and stops at 0), a positive one stops at the length.
   */
  function SpliceStart(len: nat, start: int): (k: nat)
    ensures k <= len
    ensures 0 <= start <= len ==> k == start
    ensures -(len as int) <= start < 0 ==> k == len + start
  {
    if start < 0 then (if len + start < 0 then 0 else len + start)
    else if start > len then len
    else start
  }

  /** The array `s` after `s.splice(start, 1)`: one element fewer, unless the start is past the end. */
  function SpliceOne<T>(s: seq<T>, start: int): (r: seq<T>)
    ensures var k := SpliceStart(|s|, start);
      if k < |s| then |r| == |s| - 1 && r[..k] == s[..k] && r[k..] == s[k + 1..]
      else r == s
  {
    var k := SpliceStart(|s|, start);
    if k < |s| then s[..k] + s[k + 1..] else s
  }

  // ---------------------------------------------------------------------------
  // String.prototype.split('/') and its inverse
  // ---------------------------------------------------------------------------

  const Slash: char := '/'

  /**
   * `s.split('/')`: the maximal slash-free pieces of `s`, in order; the empty
   * string splits into one empty piece. Defined from the end of the string,
   * which gives the same pieces as scanning from the front.
   */
  function Split(s: string): (parts: seq<string>)
    ensures |parts| >= 1
    ensures forall i :: 0 <= i < |parts| ==> Slash !in parts[i]
    decreases |s|
  {
    if s == [] then [[]]
    else
      var init := Split(s[..|s| - 1]);
      var c := s[|s| - 1];
      if c == Slash then init + [[]]
      else init[..|init| - 1] + [init[|init| - 1] + [c]]
  }

  /** `parts.join('/')`. */
  function Join(parts: seq<string>): string
    requires |parts| >= 1
  {
    if |parts| == 1 then parts[0]
    else Join(parts[..|parts| - 1]) + [Slash] + parts[|parts| - 1]
  }

  /** Joining one more piece adds a slash and the piece. */
  lemma {:induction false} JoinAppendPiece(parts: seq<string>, y: string)
    requires |parts| >= 1
    ensures Join(parts + [y]) == Join(parts) + [Slash] + y
  {
    var q := parts + [y];
    assert q[..|q| - 1] == parts;
  }

  /** Extending the last piece extends the joined string by the same text. */
  lemma {:induction false} JoinExtendLast(parts: seq<string>, y: string)
    requires |parts| >= 1
    ensures Join(parts[..|parts| - 1] + [parts[|parts| - 1] + y]) == Join(parts) + y
  {
    var q := parts[..|parts| - 1] + [parts[|parts| - 1] + y];
    if |parts| > 1 {
      assert q[..|q| - 1] == parts[..|parts| - 1];
      assert q[|q| - 1] == parts[|parts| - 1] + y;
    }
  }

  /** Joining the pieces of a split gives back the string. */
  lemma {:induction false} JoinSplit(s: string)
    ensures Join(Split(s)) == s
    decreases |s|
  {
    if s != [] {
      var s' := s[..|s| - 1];
      var c := s[|s| - 1];
      assert s == s' + [c];
      JoinSplit(s');
      if c == Slash {
        SplitSnocSlash(s');
        JoinAppendPiece(Split(s'), []);
        assert s' + [Slash] + [] == s;
      } else {
        SplitSnoc(s', c);
        JoinExtendLast(Split(s'), [c]);
      }
    }
  }

  /** Appending one character other than a slash extends the last piece by it. */
  lemma {:induction false} SplitSnoc(s: string, c: char)
    requires c != Slash
    ensures var p := Split(s);
      Split(s + [c]) == p[..|p| - 1] + [p[|p| - 1] + [c]]
  {
    assert (s + [c])[..|s + [c]| - 1] == s;
  }

  /** Appending slash-free text to a string only extends its last piece. */
  lemma {:induction false} SplitAppendPlain(a: string, y: string)
    requires Slash !in y
    ensures var p := Split(a);
      Split(a + y) == p[..|p| - 1] + [p[|p| - 1] + y]
    decreases |y|
  {
    if y == [] {
      var p := Split(a);
      assert a + y == a;
      assert p[|p| - 1] + y == p[|p| - 1];
      assert p == p[..|p| - 1] + [p[|p| - 1]];
    } else {
      var y', c := y[..|y| - 1], y[|y| - 1];
      assert y == y' + [c];
      SplitAppendPlain(a, y');
      SplitAppendPlainStep(a, y', c);
      assert a + y == a + y' + [c];
    }
  }

  /** One step of `SplitAppendPlain`: one more character other than a slash. */
  lemma {:induction false} SplitAppendPlainStep(a: string, y: string, c: char)
    requires c != Slash
    requires var p := Split(a); Split(a + y) == p[..|p| - 1] + [p[|p| - 1] + y]
    ensures var p := Split(a); Split(a + y + [c]) == p[..|p| - 1] + [p[|p| - 1] + (y + [c])]
  {
    SplitSnoc(a + y, c);
    var p := Split(a);
    var q := Split(a + y);
    assert |q| == |p|;
    assert q[..|q| - 1] == p[..|p| - 1];
    assert q[|q| - 1] == p[|p| - 1] + y;
    assert (p[|p| - 1] + y) + [c] == p[|p| - 1] + (y + [c]);
  }

  /** Appending a slash adds an empty piece. */
  lemma {:induction false} SplitSnocSlash(s: string)
    ensures Split(s + [Slash]) == Split(s) + [[]]
  {
    assert (s + [Slash])[..|s + [Slash]| - 1] == s;
  }

  /** Splitting slash-free pieces joined by slashes gives back the pieces. */
  lemma {:induction false} SplitJoin(parts: seq<string>)
    requires |parts| >= 1
    requires forall i :: 0 <= i < |parts| ==> Slash !in parts[i]
    ensures Split(Join(parts)) == parts
    decreases |parts|
  {
    if |parts| == 1 {
      SplitAppendPlain([], parts[0]);
      assert [] + parts[0] == parts[0];
    } else {
      var init := parts[..|parts| - 1];
      var y := parts[|parts| - 1];
      assert parts == init + [y];
      SplitJoin(init);
      SplitJoinStep(init, y);
    }
  }

  /** One step of `SplitJoin`: a slash-free piece joined after pieces that round-trip. */
  lemma {:induction false} SplitJoinStep(init: seq<string>, y: string)
    requires |init| >= 1 && Split(Join(init)) == init && Slash !in y
    ensures Split(Join(init + [y])) == init + [y]
  {
    var j := Join(init);
    JoinAppendPiece(init, y);
    SplitSnocSlash(j);
    var p := Split(j + [Slash]);
    assert p == init + [[]];
    SplitAppendPlain(j + [Slash], y);
    assert p[..|p| - 1] == init;
    assert p[|p| - 1] + y == y;
  }

  /**
   * The last piece of a split is the longest slash-free suffix: either it is
   * the whole string, or a slash stands right before it and the other pieces
   * are the split of what precedes that slash.
   */
  lemma {:induction false} SplitLast(s: string)
    ensures LastPieceIsSuffix(s)
    decreases |s|
  {
    if s != [] {
      var s', c := s[..|s| - 1], s[|s| - 1];
      if c == Slash {
        LastPieceAfterSlash(s);
      } else {
        SplitLast(s');
        LastPieceAfterPlain(s', c);
        assert s == s' + [c];
      }
    }
  }

  /**
   * The last piece `l` of the split of `s` is a suffix of `s`; it is all of
   * `s` exactly when the split has one piece; otherwise a slash precedes it
   * and the other pieces are the split of the text before that slash.
   */
  ghost predicate LastPieceIsSuffix(s: string)
  {
    var p := Split(s); var l := p[|p| - 1];
    && |l| <= |s| && l == s[|s| - |l|..]
    && (|p| == 1 <==> |l| == |s|)
    && (|l| < |s| ==> s[|s| - |l| - 1] == Slash && Split(s[..|s| - |l| - 1]) == p[..|p| - 1])
  }

  /** The part of `SplitLast` that locates the last piece within `s`. */
  lemma {:induction false} LastPieceLocation(s: string)
    ensures var p := Split(s); var l := p[|p| - 1];
      && |l| <= |s| && l == s[|s| - |l|..]
      && (|l| < |s| ==> s[|s| - |l| - 1] == Slash)
  {
    SplitLast(s);
    assert LastPieceIsSuffix(s);
  }

  /** `SplitLast` for a string ending with a slash: the last piece is empty. */
  lemma {:induction false} LastPieceAfterSlash(s: string)
    requires s != [] && s[|s| - 1] == Slash
    ensures LastPieceIsSuffix(s)
  {
    var s' := s[..|s| - 1];
    assert s == s' + [Slash];
    SplitSnocSlash(s');
    var p := Split(s);
    assert p[..|p| - 1] == Split(s');
  }

  /** `SplitLast` for a string ending with another character, from `SplitLast` without it. */
  lemma {:induction false} LastPieceAfterPlain(s: string, c: char)
    requires c != Slash && LastPieceIsSuffix(s)
    ensures LastPieceIsSuffix(s + [c])
  {
    SplitSnoc(s, c);
    var init := Split(s);
    var li := init[|init| - 1];
    var t := s + [c];
    var l := li + [c];
    assert t[|t| - |l|..] == s[|s| - |li|..] + [c];
    if |li| < |s| {
      assert t[|t| - |l| - 1] == s[|s| - |li| - 1];
      assert t[..|t| - |l| - 1] == s[..|s| - |li| - 1];
    }
  }

  // ---------------------------------------------------------------------------
  // String.prototype.trim
  // ---------------------------------------------------------------------------

  /**
   * ECMAScript's WhiteSpace and LineTerminator code points, which `trim`
   * removes from both ends.
   */
  predicate IsWhitespace(c: char)
  {
    || c == '\t' || c == '\U{000B}' || c == '\U{000C}' || c == ' '
    || c == '\U{00A0}' || c == '\U{FEFF}'
    || c == '\n' || c == '\r' || c == '\U{2028}' || c == '\U{2029}'
    || c == '\U{1680}' || ('\U{2000}' <= c <= '\U{200A}')
    || c == '\U{202F}' || c == '\U{205F}' || c == '\U{3000}'
  }

  predicate AllWhitespace(s: string)
  {
    forall k :: 0 <= k < |s| ==> IsWhitespace(s[k])
  }

  /** Neither end of `s` is whitespace. */
  predicate IsTrimmed(s: string)
  {
    s == [] || (!IsWhitespace(s[0]) && !IsWhitespace(s[|s| - 1]))
  }

  /** `s` without its leading whitespace: a suffix of `s` that does not start with whitespace. */
  function TrimStart(s: string): (r: string)
    ensures |r| <= |s| && r == s[|s| - |r|..]
    ensures AllWhitespace(s[..|s| - |r|])
    ensures r == [] || !IsWhitespace(r[0])
  {
    if s != [] && IsWhitespace(s[0]) then
      var r := TrimStart(s[1..]);
      TrimStartStep(s, r);
      r
    else s
  }

  /** `s` without its trailing whitespace: a prefix of `s` that does not end with whitespace. */
  function TrimEnd(s: string): (r: string)
    ensures |r| <= |s| && r == s[..|r|]
    ensures AllWhitespace(s[|r|..])
    ensures r == [] || !IsWhitespace(r[|r| - 1])
  {
    if s != [] && IsWhitespace(s[|s| - 1]) then
      var r := TrimEnd(s[..|s| - 1]);
      TrimEndStep(s, r);
      r
    else s
  }

  /** Dropping one leading whitespace character keeps `TrimStart`'s contract. */
  lemma {:induction false} TrimStartStep(s: string, r: string)
    requires s != [] && IsWhitespace(s[0])
    requires |r| <= |s| - 1 && r == s[1..][|s| - 1 - |r|..]
    requires AllWhitespace(s[1..][..|s| - 1 - |r|])
    ensures r == s[|s| - |r|..] && AllWhitespace(s[..|s| - |r|])
  {
    var k := |s| - |r|;
    assert s[1..][k - 1..] == s[k..];
    forall j | 0 <= j < k
      ensures IsWhitespace(s[..k][j])
    {
      if j > 0 {
        assert s[..k][j] == s[1..][..k - 1][j - 1];
      }
    }
  }

  /** Dropping one trailing whitespace character keeps `TrimEnd`'s contract. */
  lemma {:induction false} TrimEndStep(s: string, r: string)
    requires s != [] && IsWhitespace(s[|s| - 1])
    requires |r| <= |s| - 1 && r == s[..|s| - 1][..|r|]
    requires AllWhitespace(s[..|s| - 1][|r|..])
    ensures r == s[..|r|] && AllWhitespace(s[|r|..])
  {
    var k := |r|;
    assert s[..|s| - 1][..k] == s[..k];
    forall j | 0 <= j < |s| - k
      ensures IsWhitespace(s[k..][j])
    {
      if j < |s| - 1 - k {
        assert s[k..][j] == s[..|s| - 1][k..][j];
      }
    }
  }

  /** `s.trim()`: trimmed at both ends, and empty exactly when `s` is all whitespace. */
  function Trim(s: string): (r: string)
    ensures IsTrimmed(r)
    ensures r == [] <==> AllWhitespace(s)
  {
    TrimEndOfTrimStart(s);
    TrimEnd(TrimStart(s))
  }

  lemma {:induction false} TrimEndOfTrimStart(s: string)
    ensures IsTrimmed(TrimEnd(TrimStart(s)))
    ensures TrimEnd(TrimStart(s)) == [] <==> AllWhitespace(s)
  {
    var t := TrimStart(s);
    var r := TrimEnd(t);
    if r != [] {
      TrimmedNonEmpty(s, t, r);
    } else {
      TrimmedEmpty(s, t, r);
    }
  }

  lemma {:induction false} TrimmedEmpty(s: string, t: string, r: string)
    requires |t| <= |s| && t == s[|s| - |t|..] && AllWhitespace(s[..|s| - |t|])
    requires r == [] && AllWhitespace(t[|r|..])
    ensures AllWhitespace(s)
  {
    assert t[|r|..] == t;
    assert s == s[..|s| - |t|] + t;
    AllWhitespaceConcat(s[..|s| - |t|], t);
  }

  lemma {:induction false} TrimmedNonEmpty(s: string, t: string, r: string)
    requires |t| <= |s| && t == s[|s| - |t|..] && (t == [] || !IsWhitespace(t[0]))
    requires |r| <= |t| && r == t[..|r|] && (r == [] || !IsWhitespace(r[|r| - 1]))
    requires r != []
    ensures IsTrimmed(r) && !AllWhitespace(s)
  {
    assert r[0] == t[0] == s[|s| - |t|];
  }

  lemma {:induction false} AllWhitespaceConcat(a: string, b: string)
    requires AllWhitespace(a) && AllWhitespace(b)
    ensures AllWhitespace(a + b)
  {
    forall k | 0 <= k < |a + b| ensures IsWhitespace((a + b)[k]) {
      if k >= |a| {
        assert (a + b)[k] == b[k - |a|];
      }
    }
  }

  lemma {:induction false} TrimStartPadded(a: string, t: string)
    requires AllWhitespace(a)
    requires t == [] || !IsWhitespace(t[0])
    ensures TrimStart(a + t) == t
    decreases |a|
  {
    if a == [] {
      assert a + t == t;
    } else {
      assert (a + t)[1..] == a[1..] + t;
      TrimStartPadded(a[1..], t);
    }
  }

  lemma {:induction false} TrimEndPadded(t: string, b: string)
    requires AllWhitespace(b)
    requires t == [] || !IsWhitespace(t[|t| - 1])
    ensures TrimEnd(t + b) == t
    decreases |b|
  {
    if b == [] {
      assert t + b == t;
    } else {
      assert (t + b)[..|t + b| - 1] == t + b[..|b| - 1];
      TrimEndPadded(t, b[..|b| - 1]);
    }
  }

  /**
   * `trim` has a reference definition: whenever `s` is some whitespace, then
   * a trimmed string `r`, then more whitespace, `s.trim()` is `r`.
   */
  lemma {:induction false} TrimPadded(a: string, r: string, b: string)
    requires AllWhitespace(a) && AllWhitespace(b) && IsTrimmed(r)
    ensures Trim(a + r + b) == r
  {
    if r == [] {
      assert a + r + b == (a + b) + [];
      TrimStartPadded(a + b, []);
    } else {
      assert a + r + b == a + (r + b);
      TrimStartPadded(a, r + b);
      TrimEndPadded(r, b);
    }
  }

  /** Trimming twice is trimming once. */
  lemma {:induction false} TrimIdempotent(s: string)
    ensures Trim(Trim(s)) == Trim(s)
  {
    TrimOfTrimmed(Trim(s));
  }

  /** A string with no whitespace at either end is its own `trim`. */
  lemma {:induction false} TrimOfTrimmed(r: string)
    requires IsTrimmed(r)
    ensures Trim(r) == r
  {
    var e: string := [];
    assert AllWhitespace(e);
    assert e + r + e == r;
    TrimPadded(e, r, e);
  }
}
