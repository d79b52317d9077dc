/**
 * The pieces of Rust's `str` API that the assembler relies on, over
 * `string` (a sequence of Unicode scalar values): `trim`, `trim_matches`,
 * `split`, `starts_with`, `contains`, `is_ascii`, `to_lowercase` on ASCII
 * text, `parse::<i8>` / `parse::<i16>`, and `as_bytes` (UTF-8).
 */
module Text {
  import opened Wrappers
  import opened Bits

  // ------------------------------------------------------------------
  // Whitespace and trimming
  // ------------------------------------------------------------------

  /** `char::is_whitespace`: the Unicode White_Space property. */
  predicate IsWhitespace(c: char) {
    ('\t' <= c <= '\r') || c == ' ' || c == '\U{85}' || c == '\U{A0}'
    || c == '\U{1680}' || ('\U{2000}' <= c <= '\U{200A}') || c == '\U{2028}'
    || c == '\U{2029}' || c == '\U{202F}' || c == '\U{205F}' || c == '\U{3000}'
  }

  /** `trim_start`: drops the leading whitespace and keeps the rest. */
  function TrimStart(s: string): (r: string)
    ensures |r| <= |s| && r == s[|s| - |r|..]
    ensures forall i :: 0 <= i < |s| - |r| ==> IsWhitespace(s[i])
    ensures r == [] || !IsWhitespace(r[0])
  {
    if s != [] && IsWhitespace(s[0]) then TrimStart(s[1..]) else s
  }

  /** `trim_end`: drops the trailing whitespace and keeps the rest. */
  function TrimEnd(s: string): (r: string)
    ensures |r| <= |s| && r == s[..|r|]
    ensures forall i :: |r| <= i < |s| ==> IsWhitespace(s[i])
    ensures r == [] || !IsWhitespace(r[|r| - 1])
  {
    if s != [] && IsWhitespace(s[|s| - 1]) then TrimEnd(s[..|s| - 1]) else s
  }

  /** `trim`: both ends. */
  function Trim(s: string): (r: string)
    ensures r == [] || (!IsWhitespace(r[0]) && !IsWhitespace(r[|r| - 1]))
  {
    TrimEnd(TrimStart(s))
  }

  /** A string without surrounding whitespace is its own trim. */
  lemma TrimNoop(s: string)
    requires s == [] || (!IsWhitespace(s[0]) && !IsWhitespace(s[|s| - 1]))
    ensures Trim(s) == s
  {
  }

  /** Trimming twice is trimming once. */
  lemma TrimIdempotent(s: string)
    ensures Trim(Trim(s)) == Trim(s)
  {
    TrimNoop(Trim(s));
  }

  /** The string is empty or only whitespace. */
  predicate IsBlank(s: string) {
    forall i :: 0 <= i < |s| ==> IsWhitespace(s[i])
  }

  /** `s.trim().len() == 0` holds exactly on the blank strings. */
  lemma {:induction false} BlankIsTrimEmpty(s: string)
    ensures IsBlank(s) <==> Trim(s) == []
    decreases |s|
  {
    if s != [] && IsWhitespace(s[0]) {
      BlankIsTrimEmpty(s[1..]);
      assert forall i :: 1 <= i < |s| ==> s[i] == s[1..][i - 1];
      assert Trim(s) == Trim(s[1..]);
    }
  }

  /** Strips every leading copy of `c` (`trim_start_matches(c)`). */
  function StripLeading(s: string, c: char): (r: string)
    ensures |r| <= |s| && r == s[|s| - |r|..]
    ensures forall i :: 0 <= i < |s| - |r| ==> s[i] == c
    ensures r == [] || r[0] != c
  {
    if s != [] && s[0] == c then StripLeading(s[1..], c) else s
  }

  /** Strips every trailing copy of `c` (`trim_end_matches(c)`). */
  function StripTrailing(s: string, c: char): (r: string)
    ensures |r| <= |s| && r == s[..|r|]
    ensures forall i :: |r| <= i < |s| ==> s[i] == c
    ensures r == [] || r[|r| - 1] != c
  {
    if s != [] && s[|s| - 1] == c then StripTrailing(s[..|s| - 1], c) else s
  }

  /** `trim_matches(c)`: strips every copy of `c` at both ends. */
  function TrimMatches(s: string, c: char): (r: string)
    ensures r == [] || (r[0] != c && r[|r| - 1] != c)
  {
    StripTrailing(StripLeading(s, c), c)
  }

  /** A string of nothing but `c` is stripped to nothing. */
  lemma {:induction false} TrimMatchesAll(s: string, c: char)
    requires forall i :: 0 <= i < |s| ==> s[i] == c
    ensures TrimMatches(s, c) == []
  {
    if s != [] {
      TrimMatchesAll(s[1..], c);
    }
  }

  /** Text inside one pair of `c` that itself neither starts nor ends with `c` comes out unchanged. */
  lemma TrimMatchesQuoted(body: string, c: char)
    requires body == [] || (body[0] != c && body[|body| - 1] != c)
    ensures TrimMatches([c] + body + [c], c) == body
  {
    if body == [] {
      var s := [c] + body + [c];
      assert s == [c, c] && s[1..] == [c] && s[1..][1..] == [];
      assert StripLeading(s, c) == [];
    } else {
      StripOpening(body, c);
      StripClosing(body, c);
    }
  }

  /** The one leading `c` goes when the text after it does not start with `c`. */
  lemma StripOpening(body: string, c: char)
    requires body != [] && body[0] != c
    ensures StripLeading([c] + body + [c], c) == body + [c]
  {
    var s := [c] + body + [c];
    assert s[1..] == body + [c];
    assert (body + [c])[0] == body[0];
  }

  /** The one trailing `c` goes when the text before it does not end with `c`. */
  lemma StripClosing(body: string, c: char)
    requires body != [] && body[|body| - 1] != c
    ensures StripTrailing(body + [c], c) == body
  {
    var t := body + [c];
    assert t[..|t| - 1] == body;
  }

  // ------------------------------------------------------------------
  // Searching
  // ------------------------------------------------------------------

  /** `s.contains(p)` for a string pattern. */
  predicate Contains(s: string, p: string) {
    exists i :: 0 <= i <= |s| - |p| && p <= s[i..]
  }

  /** A string contains itself. */
  lemma ContainsSelf(s: string)
    ensures Contains(s, s)
  {
    assert s <= s[0..];
  }

  /** Containment is kept when text is added at either end. */
  lemma ContainsExtend(s: string, p: string, pre: string, post: string)
    requires Contains(s, p)
    ensures Contains(pre + s + post, p)
  {
    var i :| 0 <= i <= |s| - |p| && p <= s[i..];
    var t := pre + s + post;
    assert t[|pre| + i..][..|p|] == s[i..][..|p|];
    assert p <= t[|pre| + i..];
  }

  // ------------------------------------------------------------------
  // Splitting and joining on a single character
  // ------------------------------------------------------------------

  /** `s.split(c)`: the pieces between the occurrences of `c`, at least one. */
  function Split(s: string, c: char): (r: seq<string>)
    ensures |r| >= 1
    ensures forall k :: 0 <= k < |r| ==> c !in r[k]
  {
    if s == [] then [[]]
    else
      var rest := Split(s[1..], c);
      if s[0] == c then [[]] + rest
      else [[s[0]] + rest[0]] + rest[1..]
  }

  /** The pieces put back together with `c` between them. */
  function Join(ps: seq<string>, c: char): (r: string)
    requires |ps| >= 1
  {
    if |ps| == 1 then ps[0] else ps[0] + [c] + Join(ps[1..], c)
  }

  /** Joining the pieces of a split gives back the string. */
  lemma {:induction false} JoinSplit(s: string, c: char)
    ensures Join(Split(s, c), c) == s
  {
    if s != [] {
      var rest := Split(s[1..], c);
      JoinSplit(s[1..], c);
      if s[0] != c {
        var r := Split(s, c);
        assert r[0] == [s[0]] + rest[0];
        if |rest| == 1 {
          assert Join(r, c) == [s[0]] + rest[0];
        } else {
          assert r[1..] == rest[1..];
          assert Join(r, c) == [s[0]] + (rest[0] + [c] + Join(rest[1..], c));
        }
      } else {
        assert ([[]] + rest)[1..] == rest;
      }
    }
  }

  /** Splitting joined pieces that do not contain `c` gives back the pieces. */
  lemma {:induction false} SplitJoin(ps: seq<string>, c: char)
    requires |ps| >= 1
    requires forall k :: 0 <= k < |ps| ==> c !in ps[k]
    ensures Split(Join(ps, c), c) == ps
  {
    if |ps| == 1 {
      SplitPiece(ps[0], c);
    } else {
      SplitJoin(ps[1..], c);
      SplitAppend(ps[0], Join(ps[1..], c), c);
      assert ps == [ps[0]] + ps[1..];
    }
  }

  /** A string without `c` splits into itself. */
  lemma {:induction false} SplitPiece(s: string, c: char)
    requires c !in s
    ensures Split(s, c) == [s]
  {
    if s != [] {
      SplitPiece(s[1..], c);
      assert [s[0]] + s[1..] == s;
    }
  }

  /** Splitting `p + [c] + t` for a piece p without `c`. */
  lemma {:induction false} SplitAppend(p: string, t: string, c: char)
    requires c !in p
    ensures Split(p + [c] + t, c) == [p] + Split(t, c)
  {
    var s := p + [c] + t;
    if p == [] {
      assert s[1..] == t;
    } else {
      assert s[1..] == p[1..] + [c] + t;
      SplitAppend(p[1..], t, c);
      assert [p[0]] + p[1..] == p;
    }
  }

  // ------------------------------------------------------------------
  // ASCII
  // ------------------------------------------------------------------

  predicate IsAsciiChar(c: char) {
    c < '\U{80}'
  }

  /** `str::is_ascii`. */
  predicate IsAscii(s: string) {
    forall i :: 0 <= i < |s| ==> IsAsciiChar(s[i])
  }

  /** `char::is_ascii_digit`. */
  predicate IsAsciiDigit(c: char) {
    '0' <= c <= '9'
  }

  function LowerChar(c: char): (d: char)
    ensures IsAsciiChar(c) ==> IsAsciiChar(d)
    ensures !('A' <= c <= 'Z') ==> d == c
  {
    if 'A' <= c <= 'Z' then (c as int + 32) as char else c
  }

  /** `to_lowercase` on ASCII text: every upper-case letter lowered, nothing else touched. */
  function ToLowerAscii(s: string): (r: string)
    ensures |r| == |s|
    ensures forall i :: 0 <= i < |s| ==> r[i] == LowerChar(s[i])
  {
    if s == [] then [] else [LowerChar(s[0])] + ToLowerAscii(s[1..])
  }

  /** Lower-case text is left as it is. */
  lemma ToLowerAsciiNoop(s: string)
    requires forall i :: 0 <= i < |s| ==> !('A' <= s[i] <= 'Z')
    ensures ToLowerAscii(s) == s
  {
  }

  // ------------------------------------------------------------------
  // Decimal integers: Rust's `str::parse::<iN>`
  // ------------------------------------------------------------------

  predicate AllDigits(s: string) {
    forall i :: 0 <= i < |s| ==> IsAsciiDigit(s[i])
  }

  /** The value of a string of decimal digits, most significant first. */
  function DigitsValue(s: string): (v: nat)
    requires AllDigits(s)
  {
    if s == [] then 0
    else DigitsValue(s[..|s| - 1]) * 10 + (s[|s| - 1] as int - '0' as int)
  }

  /**
   * `s.parse::<iN>()` for the range [lo, hi]: an optional `+` or `-`, then one
   * or more ASCII digits, with a value inside the range; everything else fails.
   */
  function ParseInt(s: string, lo: int, hi: int): (r: Option<int>)
    ensures r.Some? ==> lo <= r.value <= hi
    ensures r.Some? ==> s != [] && (IsAsciiDigit(s[0]) || s[0] == '+' || s[0] == '-')
  {
    var signed := s != [] && (s[0] == '+' || s[0] == '-');
    var digits := if signed then s[1..] else s;
    if digits == [] || !AllDigits(digits) then None
    else
      var mag: int := DigitsValue(digits);
      var v := if signed && s[0] == '-' then -mag else mag;
      if lo <= v <= hi then Some(v) else None
  }

  /** Decimal digits of a natural number, without leading zeros. */
  function NatToString(n: nat): (s: string)
    ensures s != [] && AllDigits(s)
  {
    if n < 10 then [('0' as int + n) as char]
    else NatToString(n / 10) + [('0' as int + n % 10) as char]
  }

  /** Rust's `Display` for an integer: a `-` for negatives, then the digits. */
  function IntToString(v: int): (s: string)
    ensures s != []
  {
    if v < 0 then "-" + NatToString(-v) else NatToString(v)
  }

  lemma {:induction false} DigitsOfNat(n: nat)
    ensures DigitsValue(NatToString(n)) == n
  {
    if n >= 10 {
      DigitsOfNat(n / 10);
      var s := NatToString(n);
      assert s[..|s| - 1] == NatToString(n / 10);
    }
  }

  /** Parsing the printed form of an in-range integer gives it back. */
  lemma ParsePrinted(v: int, lo: int, hi: int)
    requires lo <= v <= hi
    ensures ParseInt(IntToString(v), lo, hi) == Some(v)
  {
    var s := IntToString(v);
    if v < 0 {
      var d := NatToString(-v);
      assert s == "-" + d;
      assert s[1..] == d;
      DigitsOfNat(-v);
      assert DigitsValue(d) == -v;
    } else {
      var d := NatToString(v);
      assert s == d;
      assert IsAsciiDigit(d[0]);
      DigitsOfNat(v);
    }
  }

  // ------------------------------------------------------------------
  // UTF-8: `str::as_bytes`
  // ------------------------------------------------------------------

  /** The UTF-8 encoding of one scalar value. */
  function Utf8Char(c: char): (bs: seq<U8>)
    ensures 1 <= |bs| <= 4
    ensures IsAsciiChar(c) <==> bs == [c as int]
  {
    var v := c as int;
    if v < 0x80 then [v]
    else if v < 0x800 then [0xC0 + v / 0x40, 0x80 + v % 0x40]
    else if v < 0x1_0000 then [0xE0 + v / 0x1000, 0x80 + (v / 0x40) % 0x40, 0x80 + v % 0x40]
    else [0xF0 + v / 0x4_0000, 0x80 + (v / 0x1000) % 0x40, 0x80 + (v / 0x40) % 0x40, 0x80 + v % 0x40]
  }

  /** The UTF-8 bytes of a string. */
  function Utf8(s: string): (bs: seq<U8>)
    ensures |bs| >= |s|
  {
    if s == [] then [] else Utf8Char(s[0]) + Utf8(s[1..])
  }

  /** The bytes of ASCII text are its character codes, one per character. */
  lemma {:induction false} Utf8Ascii(s: string)
    requires IsAscii(s)
    ensures |Utf8(s)| == |s|
    ensures forall i :: 0 <= i < |s| ==> Utf8(s)[i] == s[i] as int
  {
    if s != [] {
      Utf8Ascii(s[1..]);
    }
  }
}
