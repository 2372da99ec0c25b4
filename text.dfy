/**
 * The few pieces of Rust's `str` the todo manager relies on: `trim`, ASCII `to_lowercase`,
 * `ends_with`, `trim_end_matches`, `len` (UTF-8 bytes), byte slicing and `i64::from_str`.
 */
module Text {
  import opened Results

  // ---------------------------------------------------------------- whitespace and trim

  /** Unicode White_Space, the set `char::is_whitespace` (and so `str::trim`) uses. */
  predicate IsWhitespace(c: char) {
    || ('\t' <= c <= '\r') || c == ' ' || c == '\U{0085}' || c == '\U{00A0}' || c == '\U{1680}'
    || ('\U{2000}' <= c <= '\U{200A}') || c == '\U{2028}' || c == '\U{2029}' || c == '\U{202F}'
    || c == '\U{205F}' || c == '\U{3000}'
  }

  predicate AllWhitespace(s: string) {
    forall i :: 0 <= i < |s| ==> IsWhitespace(s[i])
  }

  /** Neither end of `s` is whitespace. */
  predicate IsTrimmed(s: string) {
    s == [] || (!IsWhitespace(s[0]) && !IsWhitespace(s[|s| - 1]))
  }

  /** `str::trim_start`: drop the longest all-whitespace prefix. */
  function TrimStart(s: string): (r: string)
    ensures |r| <= |s| && r == s[|s| - |r|..]
    ensures AllWhitespace(s[..|s| - |r|])
    ensures r == [] || !IsWhitespace(r[0])
  {
    if s != [] && IsWhitespace(s[0]) then
      var r := TrimStart(s[1..]);
      assert s[|s| - |r|..] == s[1..][|s| - 1 - |r|..];
      assert forall k :: 1 <= k < |s| - |r| ==> s[k] == s[1..][..|s| - 1 - |r|][k - 1];
      r
    else s
  }

  /** `str::trim_end`: drop the longest all-whitespace suffix. */
  function TrimEnd(s: string): (r: string)
    ensures |r| <= |s| && r == s[..|r|]
    ensures AllWhitespace(s[|r|..])
    ensures r == [] || !IsWhitespace(r[|r| - 1])
  {
    if s != [] && IsWhitespace(s[|s| - 1]) then
      var r := TrimEnd(s[..|s| - 1]);
      assert s[..|s| - 1][..|r|] == s[..|r|];
      assert forall k :: |r| <= k < |s| - 1 ==> s[k] == s[..|s| - 1][|r|..][k - |r|];
      r
    else s
  }

  /** `str::trim`. */
  function Trim(s: string): (r: string)
    ensures IsTrimmed(r)
    ensures r == [] <==> AllWhitespace(s)
  {
    var t := TrimStart(s);
    assert t == [] ==> AllWhitespace(s) by {
      if t == [] { assert s[..|s|] == s; }
    }
    assert AllWhitespace(s) ==> t == [];
    TrimEnd(t)
  }

  lemma {:induction false} TrimStartWhitespacePrefix(pre: string, u: string)
    requires AllWhitespace(pre)
    ensures TrimStart(pre + u) == TrimStart(u)
  {
    if pre != [] {
      assert (pre + u)[1..] == pre[1..] + u;
      TrimStartWhitespacePrefix(pre[1..], u);
    } else {
      assert pre + u == u;
    }
  }

  lemma {:induction false} TrimEndWhitespaceSuffix(u: string, post: string)
    requires AllWhitespace(post)
    ensures TrimEnd(u + post) == TrimEnd(u)
  {
    if post != [] {
      var n := |post| - 1;
      assert (u + post)[..|u + post| - 1] == u + post[..n];
      TrimEndWhitespaceSuffix(u, post[..n]);
    } else {
      assert u + post == u;
    }
  }

  lemma {:induction false} TrimStartAppend(t: string, post: string)
    requires !AllWhitespace(t)
    ensures TrimStart(t + post) == TrimStart(t) + post
  {
    assert t != [];
    if IsWhitespace(t[0]) {
      assert (t + post)[1..] == t[1..] + post;
      TrimStartAppend(t[1..], post);
    }
  }

  /** Surrounding whitespace makes no difference to `trim`. */
  lemma TrimIgnoresPadding(pre: string, t: string, post: string)
    requires AllWhitespace(pre) && AllWhitespace(post)
    ensures Trim(pre + t + post) == Trim(t)
  {
    assert pre + t + post == pre + (t + post);
    TrimStartWhitespacePrefix(pre, t + post);
    if AllWhitespace(t) {
      assert AllWhitespace(t + post);
    } else {
      TrimStartAppend(t, post);
      TrimEndWhitespaceSuffix(TrimStart(t), post);
    }
  }

  /** A trimmed string is its own trim. */
  lemma TrimOfTrimmed(s: string)
    requires IsTrimmed(s)
    ensures Trim(s) == s
  {
  }

  /** `trim` is idempotent. */
  lemma TrimIdempotent(s: string)
    ensures Trim(Trim(s)) == Trim(s)
  {
    TrimOfTrimmed(Trim(s));
  }

  /** `trim` keeps an infix of its input. */
  lemma TrimIsInfix(s: string) returns (i: nat, j: nat)
    ensures i <= j <= |s| && Trim(s) == s[i..j]
    ensures AllWhitespace(s[..i]) && AllWhitespace(s[j..])
  {
    var t := TrimStart(s);
    var e := TrimEnd(t);
    i := |s| - |t|;
    j := i + |e|;
    SliceOfSuffix(s, i, |e|);
  }

  /** A prefix of a suffix is an infix, and what follows it is a suffix. */
  lemma SliceOfSuffix<T>(s: seq<T>, i: nat, n: nat)
    requires i + n <= |s|
    ensures s[i..][..n] == s[i..i + n] && s[i..][n..] == s[i + n..]
  {
  }

  // ---------------------------------------------------------------- letter case

  /** Lower-cases ASCII letters; other characters are kept. */
  function LowerChar(c: char): char {
    if 'A' <= c <= 'Z' then (c as int + 32) as char else c
  }

  /** `str::to_lowercase`, restricted to ASCII letters. */
  function ToLower(s: string): (r: string)
    ensures |r| == |s|
    ensures forall i :: 0 <= i < |s| ==> r[i] == LowerChar(s[i])
  {
    if s == [] then [] else [LowerChar(s[0])] + ToLower(s[1..])
  }

  /** A string with no ASCII capitals is its own lower-case form. */
  lemma ToLowerOfLower(s: string)
    requires forall i :: 0 <= i < |s| ==> !('A' <= s[i] <= 'Z')
    ensures ToLower(s) == s
  {
  }

  // ---------------------------------------------------------------- suffixes

  predicate EndsWith(s: string, suffix: string) {
    |suffix| <= |s| && s[|s| - |suffix|..] == suffix
  }

  /** `str::trim_end_matches` with a non-empty pattern: strip the pattern as often as it ends `s`. */
  function TrimEndMatches(s: string, pat: string): (r: string)
    requires pat != []
    ensures |r| <= |s| && r == s[..|r|]
    ensures !EndsWith(r, pat)
    decreases |s|
  {
    if EndsWith(s, pat) then TrimEndMatches(s[..|s| - |pat|], pat) else s
  }

  // ---------------------------------------------------------------- UTF-8 length and byte slicing

  /** Bytes `c` takes in UTF-8. */
  function CharWidth(c: char): nat {
    if c < '\U{0080}' then 1 else if c < '\U{0800}' then 2 else if c < '\U{10000}' then 3 else 4
  }

  /** `str::len`: the length in UTF-8 bytes. */
  function Utf8Len(s: string): nat {
    if s == [] then 0 else CharWidth(s[0]) + Utf8Len(s[1..])
  }

  predicate IsAscii(s: string) {
    forall i :: 0 <= i < |s| ==> s[i] < '\U{0080}'
  }

  lemma {:induction false} Utf8LenAppend(a: string, b: string)
    ensures Utf8Len(a + b) == Utf8Len(a) + Utf8Len(b)
  {
    if a != [] {
      assert (a + b)[1..] == a[1..] + b;
      Utf8LenAppend(a[1..], b);
    } else {
      assert a + b == b;
    }
  }

  lemma {:induction false} Utf8LenAscii(s: string)
    requires IsAscii(s)
    ensures Utf8Len(s) == |s|
  {
    if s != [] {
      Utf8LenAscii(s[1..]);
    }
  }

  /**
   * `&s[..k]` on the bytes of `s`: the prefix that is exactly `k` bytes long, or None when byte `k`
   * is not a character boundary (where Rust panics).
   */
  function BytePrefix(s: string, k: nat): (r: Option<string>)
    ensures r.Some? ==> Utf8Len(r.value) == k && r.value <= s
    ensures r.None? ==> forall j :: 0 <= j <= |s| ==> Utf8Len(s[..j]) != k
  {
    if k == 0 then Some([])
    else if s == [] || CharWidth(s[0]) > k then
      NoBoundaryBeforeFirst(s, k);
      None
    else match BytePrefix(s[1..], k - CharWidth(s[0]))
      case None =>
        NoBoundaryAfterFirst(s, k);
        None
      case Some(p) => Some([s[0]] + p)
  }

  /** A non-empty prefix is the first character's width more than a prefix of the rest. */
  lemma PrefixBytes(s: string, j: nat)
    requires 1 <= j <= |s|
    ensures Utf8Len(s[..j]) == CharWidth(s[0]) + Utf8Len(s[1..][..j - 1])
  {
    assert s[..j][1..] == s[1..][..j - 1];
  }

  lemma NoBoundaryBeforeFirst(s: string, k: nat)
    requires k > 0 && (s == [] || CharWidth(s[0]) > k)
    ensures forall j :: 0 <= j <= |s| ==> Utf8Len(s[..j]) != k
  {
    forall j | 0 <= j <= |s|
      ensures Utf8Len(s[..j]) != k
    {
      if j > 0 {
        PrefixBytes(s, j);
      } else {
        assert s[..j] == [];
      }
    }
  }

  lemma NoBoundaryAfterFirst(s: string, k: nat)
    requires s != [] && 0 < CharWidth(s[0]) <= k
    requires forall j :: 0 <= j <= |s[1..]| ==> Utf8Len(s[1..][..j]) != k - CharWidth(s[0])
    ensures forall j :: 0 <= j <= |s| ==> Utf8Len(s[..j]) != k
  {
    forall j | 0 <= j <= |s|
      ensures Utf8Len(s[..j]) != k
    {
      if j > 0 {
        PrefixBytes(s, j);
      } else {
        assert s[..j] == [];
      }
    }
  }

  /** On ASCII text every byte index is a character boundary. */
  lemma {:induction false} BytePrefixAscii(s: string, k: nat)
    requires IsAscii(s) && k <= |s|
    ensures BytePrefix(s, k) == Some(s[..k])
  {
    if k > 0 {
      BytePrefixAscii(s[1..], k - 1);
      assert [s[0]] + s[1..][..k - 1] == s[..k];
    }
  }

  // ---------------------------------------------------------------- integers

  const I64Min: int := -0x8000_0000_0000_0000
  const I64Max: int := 0x7FFF_FFFF_FFFF_FFFF

  predicate IsDigit(c: char) { '0' <= c <= '9' }

  predicate AllDigits(s: string) {
    forall i :: 0 <= i < |s| ==> IsDigit(s[i])
  }

  /** The value of a string of decimal digits, most significant first. */
  function DigitsValue(s: string): nat
    requires AllDigits(s)
  {
    if s == [] then 0 else 10 * DigitsValue(s[..|s| - 1]) + (s[|s| - 1] as int - '0' as int)
  }

  /** `s` without its leading `+` or `-`, if it has one. */
  function Unsigned(s: string): (r: string)
    ensures r == s || (s != [] && (s[0] == '+' || s[0] == '-') && r == s[1..])
  {
    if s != [] && (s[0] == '+' || s[0] == '-') then s[1..] else s
  }

  /** An optional sign followed by one or more ASCII digits, and nothing else. */
  predicate IsSignedDigits(s: string) {
    Unsigned(s) != [] && AllDigits(Unsigned(s))
  }

  /** The value such a string denotes, negated after a `-`. */
  function SignedValue(s: string): int
    requires IsSignedDigits(s)
  {
    if s[0] == '-' then -(DigitsValue(Unsigned(s)) as int) else DigitsValue(Unsigned(s))
  }

  /**
   * `str::parse::<i64>`: an optional `+` or `-`, then one or more ASCII digits, the whole
   * string and nothing else, within the range of `i64`.
   */
  function ParseI64(s: string): (r: Option<int>)
    ensures r.Some? ==> s != [] && (IsDigit(s[0]) || s[0] == '+' || s[0] == '-')
    ensures r.Some? ==> IsDigit(s[|s| - 1])
  {
    var negative := s != [] && s[0] == '-';
    var digits := if s != [] && (s[0] == '+' || s[0] == '-') then s[1..] else s;
    if digits == [] || !AllDigits(digits) then None
    else
      var v: int := if negative then -(DigitsValue(digits) as int) else DigitsValue(digits);
      if I64Min <= v <= I64Max then Some(v) else None
  }

  /**
   * `ParseI64` accepts exactly an optional sign and one or more digits whose value fits in an
   * `i64`, and then gives that value.
   */
  lemma ParseI64Accepts(s: string)
    ensures ParseI64(s).Some? <==> IsSignedDigits(s) && I64Min <= SignedValue(s) <= I64Max
    ensures ParseI64(s).Some? ==> ParseI64(s).value == SignedValue(s)
  {
  }

  /** A `+` is accepted, leading zeros are accepted, and any other character rejects the text. */
  lemma ParseI64Examples()
    ensures ParseI64("+5") == Some(5) && ParseI64("-5") == Some(-5) && ParseI64("007") == Some(7)
    ensures ParseI64("1a1") == None && ParseI64("") == None && ParseI64("-") == None && ParseI64(" 5") == None
  {
    assert Unsigned("+5") == "5" && Unsigned("-5") == "5";
    assert DigitsValue("5") == 5;
    assert "007"[..2] == "00" && "00"[..1] == "0" && "0"[..0] == "";
    assert !IsDigit("1a1"[1]) && !IsDigit(" 5"[0]);
  }

  /** The decimal digits of `n` (helper for stating properties of `ParseI64`). */
  function NatToDecimal(n: nat): (r: string)
    ensures r != [] && AllDigits(r)
  {
    var d := ['0' + (n % 10) as char];
    if n < 10 then d else NatToDecimal(n / 10) + d
  }

  /** `n` in decimal with a leading `-` when negative: what `i64::to_string` prints. */
  function IntToDecimal(n: int): (r: string)
    ensures r != [] && (IsDigit(r[0]) || r[0] == '-') && IsDigit(r[|r| - 1])
    ensures forall i :: 1 <= i < |r| ==> IsDigit(r[i])
  {
    if n < 0 then "-" + NatToDecimal(-n) else NatToDecimal(n)
  }

  lemma {:induction false} DigitsOfDecimal(n: nat)
    ensures DigitsValue(NatToDecimal(n)) == n
  {
    var r := NatToDecimal(n);
    if n >= 10 {
      DigitsOfDecimal(n / 10);
      assert r[..|r| - 1] == NatToDecimal(n / 10);
    }
  }

  /** Round trip: `i64::from_str` reads back what `i64::to_string` prints. */
  lemma ParseI64OfDecimal(n: int)
    requires I64Min <= n <= I64Max
    ensures ParseI64(IntToDecimal(n)) == Some(n)
  {
    if n < 0 {
      DigitsOfDecimal(-n);
      assert IntToDecimal(n)[1..] == NatToDecimal(-n);
    } else {
      DigitsOfDecimal(n);
    }
  }
}
