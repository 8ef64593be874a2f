/** Helpers shared by the backend and client models: an optional value, the
    JavaScript notion of white space and `trim`, prefix and substring tests,
    ASCII lower-casing and the decimal rendering of a natural number. */
module Common {

  datatype Option<+T> = None | Some(value: T)

  /** The characters `String.prototype.trim` removes: the ECMAScript
      WhiteSpace set (tab, vertical tab, form feed, space, no-break space,
      byte-order mark and the Unicode space separators) and the four line
      terminators. */
  predicate IsWhitespace(c: char) {
    c == '\t' || c == '\n' || c == '\U{000B}' || c == '\U{000C}' || c == '\r' || c == ' '
    || c == '\U{00A0}' || c == '\U{1680}' || ('\U{2000}' <= c <= '\U{200A}')
    || c == '\U{2028}' || c == '\U{2029}' || c == '\U{202F}' || c == '\U{205F}'
    || c == '\U{3000}' || c == '\U{FEFF}'
  }

  /** The characters Python's `str.strip()` removes: those `str.isspace`
      accepts (the ASCII controls tab to carriage return and the four
      separators 0x1C to 0x1F, space, next line, no-break space and the
      Unicode space separators and line and paragraph separators). Unlike
      JavaScript's set it leaves the byte-order mark alone. */
  predicate IsPySpace(c: char) {
    ('\t' <= c <= '\r') || ('\U{001C}' <= c <= ' ') || c == '\U{0085}' || c == '\U{00A0}'
    || c == '\U{1680}' || ('\U{2000}' <= c <= '\U{200A}') || c == '\U{2028}' || c == '\U{2029}'
    || c == '\U{202F}' || c == '\U{205F}' || c == '\U{3000}'
  }

  /** Cutting the characters `ws` accepts from the front. */
  function TrimStart(s: string, ws: char -> bool): (r: string)
    ensures |r| <= |s| && r == s[|s| - |r|..]
    ensures r != [] ==> !ws(r[0])
  {
    if s != [] && ws(s[0]) then TrimStart(s[1..], ws) else s
  }

  /** Cutting the characters `ws` accepts from the back. */
  function TrimEnd(s: string, ws: char -> bool): (r: string)
    ensures |r| <= |s| && r == s[..|r|]
    ensures r != [] ==> !ws(r[|r| - 1])
  {
    if s != [] && ws(s[|s| - 1]) then TrimEnd(s[..|s| - 1], ws) else s
  }

  /** Everything `TrimStart` cuts off is accepted by `ws`. */
  lemma {:induction false} TrimStartCutsWhitespace(s: string, ws: char -> bool)
    ensures forall i :: 0 <= i < |s| - |TrimStart(s, ws)| ==> ws(s[i])
  {
    if s != [] && ws(s[0]) {
      TrimStartCutsWhitespace(s[1..], ws);
      forall i | 1 <= i < |s| - |TrimStart(s, ws)| ensures ws(s[i]) {
        assert s[i] == s[1..][i - 1];
      }
    }
  }

  /** Everything `TrimEnd` cuts off is accepted by `ws`. */
  lemma {:induction false} TrimEndCutsWhitespace(s: string, ws: char -> bool)
    ensures forall i :: |TrimEnd(s, ws)| <= i < |s| ==> ws(s[i])
  {
    if s != [] && ws(s[|s| - 1]) {
      TrimEndCutsWhitespace(s[..|s| - 1], ws);
      forall i | |TrimEnd(s, ws)| <= i < |s| - 1 ensures ws(s[i]) {
        assert s[i] == s[..|s| - 1][i];
      }
    }
  }

  /** Trimming both ends leaves nothing exactly when every character is
      accepted by `ws`. */
  lemma TrimmedEmptyIff(s: string, ws: char -> bool)
    ensures TrimEnd(TrimStart(s, ws), ws) == [] <==> forall k :: 0 <= k < |s| ==> ws(s[k])
  {
    var a := TrimStart(s, ws);
    TrimStartCutsWhitespace(s, ws);
    if a != [] {
      TrimEndCutsWhitespace(a, ws);
      assert !ws(a[0]);
      assert TrimEnd(a, ws) != [];
    }
  }

  /** Characters accepted by `ws` around a string that neither starts nor
      ends with one are exactly what trimming both ends removes. */
  lemma {:induction false} TrimPadded(p: string, t: string, q: string, ws: char -> bool)
    requires t != [] && !ws(t[0]) && !ws(t[|t| - 1])
    requires forall k :: 0 <= k < |p| ==> ws(p[k])
    requires forall k :: 0 <= k < |q| ==> ws(q[k])
    ensures TrimEnd(TrimStart(p + t + q, ws), ws) == t
  {
    TrimStartPadded(p, t + q, ws);
    assert p + t + q == p + (t + q);
    TrimEndPadded(t, q, ws);
  }

  lemma {:induction false} TrimStartPadded(p: string, u: string, ws: char -> bool)
    requires u != [] && !ws(u[0])
    requires forall k :: 0 <= k < |p| ==> ws(p[k])
    ensures TrimStart(p + u, ws) == u
  {
    if p == [] {
      assert p + u == u;
    } else {
      assert (p + u)[0] == p[0];
      assert (p + u)[1..] == p[1..] + u;
      TrimStartPadded(p[1..], u, ws);
    }
  }

  lemma {:induction false} TrimEndPadded(t: string, q: string, ws: char -> bool)
    requires t != [] && !ws(t[|t| - 1])
    requires forall k :: 0 <= k < |q| ==> ws(q[k])
    ensures TrimEnd(t + q, ws) == t
    decreases |q|
  {
    if q == [] {
      assert t + q == t;
    } else {
      assert (t + q)[|t + q| - 1] == q[|q| - 1];
      assert (t + q)[..|t + q| - 1] == t + q[..|q| - 1];
      TrimEndPadded(t, q[..|q| - 1], ws);
    }
  }

  /** `s.trim()`: the infix of `s` left once white space is cut from both
      ends; whatever remains neither starts nor ends with white space. */
  function Trim(s: string): (r: string)
    ensures |r| <= |TrimStart(s, IsWhitespace)| <= |s|
    ensures r == s[|s| - |TrimStart(s, IsWhitespace)|..][..|r|]
    ensures r != [] ==> !IsWhitespace(r[0]) && !IsWhitespace(r[|r| - 1])
  {
    TrimEnd(TrimStart(s, IsWhitespace), IsWhitespace)
  }

  /** `!s.trim()`: a string is blank when trimming leaves nothing. */
  predicate IsBlank(s: string) {
    Trim(s) == []
  }

  /** A string is blank exactly when every character of it is white space. */
  lemma BlankIffAllWhitespace(s: string)
    ensures IsBlank(s) <==> forall k :: 0 <= k < |s| ==> IsWhitespace(s[k])
  {
    TrimmedEmptyIff(s, IsWhitespace);
  }

  /** Python's `s.strip()`, which Django REST framework's text fields apply
      to every submitted value: the infix left once Python white space is cut
      from both ends. */
  function Strip(s: string): (r: string)
    ensures |r| <= |TrimStart(s, IsPySpace)| <= |s|
    ensures r == s[|s| - |TrimStart(s, IsPySpace)|..][..|r|]
    ensures r != [] ==> !IsPySpace(r[0]) && !IsPySpace(r[|r| - 1])
  {
    TrimEnd(TrimStart(s, IsPySpace), IsPySpace)
  }

  /** Stripping leaves nothing exactly when every character is Python white
      space. */
  lemma StripEmptyIff(s: string)
    ensures Strip(s) == [] <==> forall k :: 0 <= k < |s| ==> IsPySpace(s[k])
  {
    TrimmedEmptyIff(s, IsPySpace);
  }

  /** White space around a stripped value is cut off again, so padded
      submissions of one value are cleaned to that value. */
  lemma StripPadded(p: string, t: string, q: string)
    requires t != [] && !IsPySpace(t[0]) && !IsPySpace(t[|t| - 1])
    requires forall k :: 0 <= k < |p| ==> IsPySpace(p[k])
    requires forall k :: 0 <= k < |q| ==> IsPySpace(q[k])
    ensures Strip(p + t + q) == t
  {
    TrimPadded(p, t, q, IsPySpace);
  }

  /** The number of UTF-16 code units of a character: two for one outside
      the Basic Multilingual Plane (a surrogate pair), one otherwise. */
  function Units(c: char): (n: nat)
    ensures 1 <= n <= 2 && (n == 2 <==> c as int > 0xFFFF)
  {
    if c as int > 0xFFFF then 2 else 1
  }

  /** JavaScript's `s.length`: the number of UTF-16 code units. */
  function Utf16Length(s: string): (n: nat)
    ensures |s| <= n <= 2 * |s|
    ensures (n == |s|) <==> forall i :: 0 <= i < |s| ==> Units(s[i]) == 1
  {
    if s == [] then 0
    else
      var n := Utf16Length(s[1..]);
      assert forall i :: 0 <= i < |s[1..]| ==> s[1..][i] == s[i + 1];
      Units(s[0]) + n
  }

  /** The longest start of `s` whose UTF-16 length is at most `limit`:
      `slice(0, limit)` when no surrogate pair straddles the cut. */
  function PrefixWithin(s: string, limit: nat): (r: string)
    ensures |r| <= |s| && r == s[..|r|]
    ensures Utf16Length(r) <= limit
    ensures |r| < |s| ==> Utf16Length(r) + Units(s[|r|]) > limit
    ensures Utf16Length(s) <= limit ==> r == s
  {
    if s == [] || Units(s[0]) > limit then []
    else
      var t := PrefixWithin(s[1..], limit - Units(s[0]));
      assert ([s[0]] + t)[1..] == t;
      [s[0]] + t
  }

  /** `s.startsWith(p)`. */
  predicate StartsWith(s: string, p: string) {
    |p| <= |s| && s[..|p|] == p
  }

  /** `s.includes(t)`: `t` occurs as a contiguous infix of `s`. */
  predicate Contains(s: string, t: string) {
    exists i :: 0 <= i <= |s| - |t| && OccursAt(s, t, i)
  }

  predicate OccursAt(s: string, t: string, i: int)
    requires 0 <= i <= |s| - |t|
  {
    s[i..i + |t|] == t
  }

  /** Lower-casing, restricted to the ASCII letters. */
  function LowerChar(c: char): char {
    if 'A' <= c <= 'Z' then (c as int + 32) as char else c
  }

  function ToLower(s: string): (r: string)
    ensures |r| == |s| && forall i :: 0 <= i < |s| ==> r[i] == LowerChar(s[i])
  {
    if s == [] then [] else [LowerChar(s[0])] + ToLower(s[1..])
  }

  predicate IsDigitChar(c: char) {
    '0' <= c <= '9'
  }

  function DigitChar(d: nat): (c: char)
    requires d < 10
    ensures IsDigitChar(c) && c as int - '0' as int == d
  {
    ('0' as int + d) as char
  }

  /** The decimal rendering of `n`, as JavaScript's template literals and
      Python's f-strings print an integer. */
  function NatToString(n: nat): (r: string)
    ensures r != [] && forall i :: 0 <= i < |r| ==> IsDigitChar(r[i])
    ensures (n < 10) == (|r| == 1)
  {
    if n < 10 then [DigitChar(n)] else NatToString(n / 10) + [DigitChar(n % 10)]
  }

  /** Distinct numbers have distinct renderings, so `"chat_" + id` names one
      room's group only. */
  lemma {:induction false} NatToStringInjective(a: nat, b: nat)
    requires NatToString(a) == NatToString(b)
    ensures a == b
  {
    var s := NatToString(a);
    if a < 10 || b < 10 {
      assert a < 10 && b < 10;
      assert s[0] == DigitChar(a) && s[0] == DigitChar(b);
    } else {
      assert s[|s| - 1] == DigitChar(a % 10) && s[|s| - 1] == DigitChar(b % 10);
      assert NatToString(a / 10) == s[..|s| - 1] == NatToString(b / 10);
      NatToStringInjective(a / 10, b / 10);
    }
  }
  /** How an awaited update call ended: with the boolean it resolved to,
      or by throwing an error carrying a message. */
  datatype SaveOutcome = Returned(ok: bool) | Threw(message: string)

  /** `o || ""` on an optional string. */
  function OrEmpty(o: Option<string>): (r: string)
    ensures o.Some? ==> r == o.value
    ensures o.None? ==> r == ""
  {
    if o.Some? then o.value else ""
  }

  /** `o || null` on an optional string: the empty string counts as absent. */
  function OrNone(o: Option<string>): (r: Option<string>)
    ensures r.Some? <==> o.Some? && o.value != ""
    ensures r.Some? ==> r == o
  {
    if o.Some? && o.value != "" then o else None
  }

  /** `a` is an order-preserving sub-list of `b`. */
  predicate SubsequenceOf<T(==)>(a: seq<T>, b: seq<T>)
    decreases |b|
  {
    a == [] || (b != [] && ((a[0] == b[0] && SubsequenceOf(a[1..], b[1..])) || SubsequenceOf(a, b[1..])))
  }

  /** `s.filter(keep)`: the elements `keep` accepts, in their original order. */
  function Filter<T(==,!new)>(s: seq<T>, keep: T -> bool): (r: seq<T>)
    ensures |r| <= |s|
    ensures forall i :: 0 <= i < |r| ==> r[i] in s && keep(r[i])
    ensures forall i :: 0 <= i < |s| && keep(s[i]) ==> s[i] in r
    ensures SubsequenceOf(r, s)
    ensures (forall i :: 0 <= i < |s| ==> keep(s[i])) ==> r == s
  {
    if s == [] then []
    else if keep(s[0]) then [s[0]] + Filter(s[1..], keep)
    else Filter(s[1..], keep)
  }

  /** `Filter` keeps every copy of an accepted element and no copy of a
      rejected one. */
  lemma {:induction false} FilterCounts<T(!new)>(s: seq<T>, keep: T -> bool)
    ensures forall x :: multiset(Filter(s, keep))[x] == if keep(x) then multiset(s)[x] else 0
  {
    if s != [] {
      FilterCounts(s[1..], keep);
      assert s == [s[0]] + s[1..];
      FilterStep(s, keep);
    }
  }

  /** `s.map(f)`. */
  function Map<A, B>(s: seq<A>, f: A -> B): (r: seq<B>)
    ensures |r| == |s| && forall i :: 0 <= i < |s| ==> r[i] == f(s[i])
  {
    seq(|s|, i requires 0 <= i < |s| => f(s[i]))
  }

  /** `s.findIndex(p)`: the first index whose element satisfies `p`, or -1. */
  function FindIndex<T>(s: seq<T>, p: T -> bool): (i: int)
    ensures -1 <= i < |s|
    ensures i == -1 <==> forall k :: 0 <= k < |s| ==> !p(s[k])
    ensures 0 <= i ==> p(s[i]) && forall k :: 0 <= k < i ==> !p(s[k])
  {
    if s == [] then -1
    else if p(s[0]) then 0
    else
      var j := FindIndex(s[1..], p);
      assert forall k :: 0 < k < |s| ==> s[k] == s[1..][k - 1];
      if j == -1 then -1 else j + 1
  }

  /** `s.slice().reverse()`. */
  function Reverse<T>(s: seq<T>): (r: seq<T>)
    ensures |r| == |s| && forall i :: 0 <= i < |s| ==> r[i] == s[|s| - 1 - i]
  {
    if s == [] then [] else Reverse(s[1..]) + [s[0]]
  }

  lemma ReverseConcat<T>(a: seq<T>, b: seq<T>)
    ensures Reverse(a + b) == Reverse(b) + Reverse(a)
  {
    var r, l := Reverse(a + b), Reverse(b) + Reverse(a);
    assert |r| == |l|;
    forall i | 0 <= i < |r|
      ensures r[i] == l[i]
    {
      if i < |b| {
        assert l[i] == Reverse(b)[i] == b[|b| - 1 - i];
      } else {
        assert l[i] == Reverse(a)[i - |b|] == a[|a| - 1 - (i - |b|)];
      }
    }
  }

  /** Filtering distributes over concatenation. */
  lemma {:induction false} FilterConcat<T(!new)>(a: seq<T>, b: seq<T>, keep: T -> bool)
    ensures Filter(a + b, keep) == Filter(a, keep) + Filter(b, keep)
  {
    if a != [] {
      assert (a + b)[1..] == a[1..] + b;
      FilterConcat(a[1..], b, keep);
    } else {
      assert a + b == b;
    }
  }

  /** One step of `Filter`: the head is kept or dropped, the tail filtered. */
  lemma FilterStep<T(!new)>(s: seq<T>, keep: T -> bool)
    requires s != []
    ensures Filter(s, keep) == (if keep(s[0]) then [s[0]] else []) + Filter(s[1..], keep)
  {
  }

  /** Cutting out position `i > 0` keeps the head and cuts position `i - 1`
      out of the tail. */
  lemma CutBehindHead<T>(s: seq<T>, i: int)
    requires 0 < i < |s|
    ensures s[..i] + s[i + 1..] == [s[0]] + (s[1..][..i - 1] + s[1..][i..])
  {
    assert s[..i] == [s[0]] + s[1..][..i - 1];
  }

  /** Filtering out the one rejected element cuts out just its position. */
  lemma {:induction false} FilterCutsOut<T(!new)>(s: seq<T>, i: int, keep: T -> bool)
    requires 0 <= i < |s| && !keep(s[i])
    requires forall k :: 0 <= k < |s| && k != i ==> keep(s[k])
    ensures Filter(s, keep) == s[..i] + s[i + 1..]
  {
    var t := s[1..];
    forall k | 0 <= k < |t| && k != i - 1 ensures keep(t[k]) {
      assert t[k] == s[k + 1];
    }
    FilterStep(s, keep);
    if i == 0 {
      assert s[..i] + s[i + 1..] == t;
    } else {
      FilterCutsOut(t, i - 1, keep);
      CutBehindHead(s, i);
    }
  }

  /** Two tests that agree on every element filter alike. */
  lemma {:induction false} FilterAgrees<T(!new)>(s: seq<T>, k1: T -> bool, k2: T -> bool)
    requires forall i :: 0 <= i < |s| ==> k1(s[i]) == k2(s[i])
    ensures Filter(s, k1) == Filter(s, k2)
  {
    if s != [] {
      assert forall i :: 0 <= i < |s[1..]| ==> s[1..][i] == s[i + 1];
      FilterAgrees(s[1..], k1, k2);
    }
  }
}
