/** The Rust standard-library string operations the server's code relies on
    (`trim`, `split_once`, `split`, `split_ascii_whitespace`, `parse::<u64>`,
    `usize::to_string`, `String::len` and the UTF-8 bytes of a `String`),
    written out so that their edge cases are explicit. */
module RustStr {
  import opened Wrappers

  /** `char::is_whitespace`: the Unicode White_Space property, which `str::trim` strips. */
  predicate IsWhitespace(c: char) {
    ('\t' <= c <= '\r') || c == ' ' || c == '\U{85}' || c == '\U{A0}' || c == '\U{1680}'
    || ('\U{2000}' <= c <= '\U{200A}') || c == '\U{2028}' || c == '\U{2029}'
    || c == '\U{202F}' || c == '\U{205F}' || c == '\U{3000}'
  }

  /** `u8::is_ascii_whitespace`, the separator of `str::split_ascii_whitespace`:
      space, tab, line feed, form feed and carriage return (not vertical tab). */
  predicate IsAsciiWhitespace(c: char) {
    c == ' ' || c == '\t' || c == '\n' || c == '\U{C}' || c == '\r'
  }

  // ---------------------------------------------------------------- trim

  /** `str::trim_start`: drop whitespace from the front. */
  function TrimStart(s: string): (r: string)
    ensures |r| <= |s|
    decreases |s|
  {
    if s != [] && IsWhitespace(s[0]) then TrimStart(s[1..]) else s
  }

  /** `str::trim_end`: drop whitespace from the back. */
  function TrimEnd(s: string): (r: string)
    ensures |r| <= |s|
    decreases |s|
  {
    if s != [] && IsWhitespace(s[|s| - 1]) then TrimEnd(s[..|s| - 1]) else s
  }

  /** TrimStart keeps the longest suffix that does not start with whitespace. */
  lemma {:induction false} TrimStartSpec(s: string)
    ensures |TrimStart(s)| <= |s| && TrimStart(s) == s[|s| - |TrimStart(s)|..]
    ensures forall k :: 0 <= k < |s| - |TrimStart(s)| ==> IsWhitespace(s[k])
    ensures TrimStart(s) == [] || !IsWhitespace(TrimStart(s)[0])
    decreases |s|
  {
    if s != [] && IsWhitespace(s[0]) {
      var t := s[1..];
      TrimStartSpec(t);
      forall k | 1 <= k < |s| - |TrimStart(s)| ensures IsWhitespace(s[k]) {
        assert s[k] == t[k - 1];
      }
      assert t[|t| - |TrimStart(t)|..] == s[|s| - |TrimStart(s)|..];
    }
  }

  /** TrimEnd keeps the longest prefix that does not end with whitespace. */
  lemma {:induction false} TrimEndSpec(s: string)
    ensures |TrimEnd(s)| <= |s| && TrimEnd(s) == s[..|TrimEnd(s)|]
    ensures forall k :: |TrimEnd(s)| <= k < |s| ==> IsWhitespace(s[k])
    ensures TrimEnd(s) == [] || !IsWhitespace(TrimEnd(s)[|TrimEnd(s)| - 1])
    decreases |s|
  {
    if s != [] && IsWhitespace(s[|s| - 1]) {
      var t := s[..|s| - 1];
      TrimEndSpec(t);
      forall k | |TrimEnd(s)| <= k < |s| - 1 ensures IsWhitespace(s[k]) {
        assert s[k] == t[k];
      }
      assert t[..|TrimEnd(t)|] == s[..|TrimEnd(s)|];
    }
  }

  /** `r` is `s` with the whitespace before position `i` and after `i + |r|` removed. */
  ghost predicate TrimmedAt(s: string, r: string, i: nat) {
    i + |r| <= |s| && s[i..i + |r|] == r
    && (forall k :: 0 <= k < i ==> IsWhitespace(s[k]))
    && (forall k :: i + |r| <= k < |s| ==> IsWhitespace(s[k]))
  }

  /** Whitespace stripped from a suffix `t` of `s` and then from the end of `t`
      leaves `s` trimmed at the start of `t`. */
  lemma TrimmedAtSuffix(s: string, t: string, r: string)
    requires |t| <= |s| && t == s[|s| - |t|..]
    requires forall k :: 0 <= k < |s| - |t| ==> IsWhitespace(s[k])
    requires |r| <= |t| && r == t[..|r|]
    requires forall k :: |r| <= k < |t| ==> IsWhitespace(t[k])
    ensures TrimmedAt(s, r, |s| - |t|)
  {
    var i := |s| - |t|;
    assert s[i..i + |r|] == r;
    forall k | i + |r| <= k < |s| ensures IsWhitespace(s[k]) {
      assert s[k] == t[k - i];
    }
  }

  /** Trimming the start and then the end leaves `s` minus whitespace on both sides. */
  lemma TrimStartEnd(s: string)
    ensures TrimmedAt(s, TrimEnd(TrimStart(s)), |s| - |TrimStart(s)|)
  {
    TrimStartSpec(s);
    TrimEndSpec(TrimStart(s));
    TrimmedAtSuffix(s, TrimStart(s), TrimEnd(TrimStart(s)));
  }

  /** `str::trim`: `s` without its leading and trailing whitespace. */
  function Trim(s: string): (r: string)
    ensures r == [] || (!IsWhitespace(r[0]) && !IsWhitespace(r[|r| - 1]))
  {
    TrimStartSpec(s);
    TrimEndSpec(TrimStart(s));
    TrimEnd(TrimStart(s))
  }

  /** Trim removes whitespace from the two ends of `s` and nothing else. */
  lemma TrimSpec(s: string)
    ensures exists i :: TrimmedAt(s, Trim(s), i)
  {
    TrimStartEnd(s);
    assert TrimmedAt(s, Trim(s), |s| - |TrimStart(s)|);
  }

  /** A string that neither starts nor ends with whitespace is its own trim. */
  lemma TrimNoop(s: string)
    requires s == [] || (!IsWhitespace(s[0]) && !IsWhitespace(s[|s| - 1]))
    ensures Trim(s) == s
  {
  }

  /** Trimming twice is trimming once. */
  lemma TrimIdempotent(s: string)
    ensures Trim(Trim(s)) == Trim(s)
  {
    TrimNoop(Trim(s));
  }

  // ---------------------------------------------------------------- split

  /** The position of the first `c` in `s`, if any. */
  function Find(s: string, c: char): (r: Option<nat>)
    ensures r.None? <==> c !in s
    ensures r.Some? ==> r.value < |s| && s[r.value] == c && c !in s[..r.value]
    decreases |s|
  {
    if s == [] then None
    else if s[0] == c then Some(0)
    else match Find(s[1..], c)
      case None => None
      case Some(i) =>
        assert s[..i + 1] == [s[0]] + s[1..][..i];
        Some(i + 1)
  }

  /** `str::split_once(c)`: the text before and after the first `c`. */
  function SplitOnce(s: string, c: char): (r: Option<(string, string)>)
    ensures r.None? <==> c !in s
    ensures r.Some? ==> s == r.value.0 + [c] + r.value.1 && c !in r.value.0
  {
    match Find(s, c)
    case None => None
    case Some(i) =>
      assert s == s[..i] + [c] + s[i + 1..];
      Some((s[..i], s[i + 1..]))
  }

  /** In `x + [c] + z`, where `x` has no `c`, the first `c` is the one after `x`. */
  lemma {:induction false} FindAfter(x: string, c: char, z: string)
    requires c !in x
    ensures Find(x + [c] + z, c) == Some(|x|)
    decreases |x|
  {
    if x != [] {
      assert (x + [c] + z)[1..] == x[1..] + [c] + z;
      FindAfter(x[1..], c, z);
    }
  }

  /** The first `c` of `a` is also the first `c` of anything `a` starts. */
  lemma {:induction false} FindInPrefix(a: string, c: char, t: string)
    requires c in a
    ensures Find(a + t, c) == Find(a, c)
    decreases |a|
  {
    if a[0] != c {
      assert (a + t)[1..] == a[1..] + t;
      FindInPrefix(a[1..], c, t);
    }
  }

  /** Splitting `x + [c] + z` once, where `x` has no `c`, gives back `x` and `z`. */
  lemma SplitOnceAtFirst(x: string, c: char, z: string)
    requires c !in x
    ensures SplitOnce(x + [c] + z, c) == Some((x, z))
  {
    var s := x + [c] + z;
    FindAfter(x, c, z);
    assert s[..|x|] == x && s[|x| + 1..] == z;
  }

  /** `str::split(c)`: the pieces between the occurrences of `c`; n occurrences
      give n + 1 pieces, and the empty string gives one empty piece. */
  function Split(s: string, c: char): (r: seq<string>)
    ensures |r| >= 1
    decreases |s|
  {
    match Find(s, c)
    case None => [s]
    case Some(i) => [s[..i]] + Split(s[i + 1..], c)
  }

  /** No piece of a split contains the separator. */
  lemma {:induction false} SplitPieces(s: string, c: char)
    ensures forall p :: p in Split(s, c) ==> c !in p
    decreases |s|
  {
    match Find(s, c)
    case None =>
    case Some(i) => SplitPieces(s[i + 1..], c);
  }

  /** The pieces glued back together with `c` in between. */
  function Join(pieces: seq<string>, c: char): string
    requires |pieces| >= 1
  {
    if |pieces| == 1 then pieces[0] else pieces[0] + [c] + Join(pieces[1..], c)
  }

  /** Split loses nothing: joining its pieces rebuilds the input. */
  lemma {:induction false} JoinSplit(s: string, c: char)
    ensures Join(Split(s, c), c) == s
    decreases |s|
  {
    match Find(s, c)
    case None =>
    case Some(i) =>
      JoinSplit(s[i + 1..], c);
      assert Split(s, c)[1..] == Split(s[i + 1..], c);
      assert s == s[..i] + [c] + s[i + 1..];
  }

  /** Split is the inverse of Join on pieces that do not contain the separator. */
  lemma {:induction false} SplitJoin(pieces: seq<string>, c: char)
    requires |pieces| >= 1
    requires forall p :: p in pieces ==> c !in p
    ensures Split(Join(pieces, c), c) == pieces
    decreases |pieces|
  {
    if |pieces| > 1 {
      var s := Join(pieces, c);
      FindAfter(pieces[0], c, Join(pieces[1..], c));
      assert s[..|pieces[0]|] == pieces[0] && s[|pieces[0]| + 1..] == Join(pieces[1..], c);
      SplitJoin(pieces[1..], c);
      assert pieces == [pieces[0]] + pieces[1..];
    }
  }

  /** Split, unfolded once at the first separator. */
  lemma SplitAtFirst(s: string, c: char, i: nat)
    requires Find(s, c) == Some(i)
    ensures Split(s, c) == [s[..i]] + Split(s[i + 1..], c)
  {
  }

  /** With no separator in `a`, `a` is the first piece of `a + [c] + b`. */
  lemma SplitAppendFirst(a: string, c: char, b: string)
    requires c !in a
    ensures Split(a + [c] + b, c) == [a] + Split(b, c)
  {
    var s := a + [c] + b;
    FindAfter(a, c, b);
    assert s[..|a|] == a && s[|a| + 1..] == b;
    SplitAtFirst(s, c, |a|);
  }

  /** The first piece of `a + [c] + b` is the first piece of `a` when `a` has a separator. */
  lemma SplitAppendStep(a: string, c: char, b: string, i: nat)
    requires Find(a, c) == Some(i)
    ensures Split(a + [c] + b, c) == [a[..i]] + Split(a[i + 1..] + [c] + b, c)
  {
    var s := a + [c] + b;
    assert s == a + ([c] + b);
    FindInPrefix(a, c, [c] + b);
    assert s[..i] == a[..i];
    assert s[i + 1..] == a[i + 1..] + [c] + b;
    SplitAtFirst(s, c, i);
  }

  lemma ConsAssoc<T>(x: T, left: seq<T>, right: seq<T>)
    ensures [x] + (left + right) == ([x] + left) + right
  {
  }

  /** Splitting at a separator between `a` and `b` splits each side separately. */
  lemma {:induction false} SplitAppend(a: string, c: char, b: string)
    ensures Split(a + [c] + b, c) == Split(a, c) + Split(b, c)
    decreases |a|
  {
    match Find(a, c)
    case None =>
      SplitAppendFirst(a, c, b);
    case Some(i) =>
      SplitAppendStep(a, c, b, i);
      SplitAppend(a[i + 1..], c, b);
      SplitAtFirst(a, c, i);
      ConsAssoc(a[..i], Split(a[i + 1..], c), Split(b, c));
  }

  // ------------------------------------------------- split_ascii_whitespace

  /** A token of `split_ascii_whitespace`: non-empty, without ASCII whitespace. */
  predicate IsWord(t: string) {
    t != [] && forall k :: 0 <= k < |t| ==> !IsAsciiWhitespace(t[k])
  }

  /** The length of the run of non-whitespace characters that starts `s`. */
  function WordLength(s: string): (n: nat)
    ensures n <= |s|
    ensures forall k :: 0 <= k < n ==> !IsAsciiWhitespace(s[k])
    ensures n == |s| || IsAsciiWhitespace(s[n])
  {
    if s == [] || IsAsciiWhitespace(s[0]) then 0 else 1 + WordLength(s[1..])
  }

  /** `str::split_ascii_whitespace`: the maximal runs of non-whitespace, in order. */
  function Tokens(s: string): (r: seq<string>)
    ensures forall t :: t in r ==> IsWord(t)
    decreases |s|
  {
    if s == [] then []
    else if IsAsciiWhitespace(s[0]) then Tokens(s[1..])
    else
      var n := WordLength(s);
      [s[..n]] + Tokens(s[n..])
  }

  /** A word followed by whitespace (or nothing) is the first token. */
  lemma TokensOfWord(w: string, rest: string)
    requires IsWord(w)
    requires rest == [] || IsAsciiWhitespace(rest[0])
    ensures Tokens(w + rest) == [w] + Tokens(rest)
  {
    var s := w + rest;
    var n := WordLength(s);
    if rest != [] {
      assert s[|w|] == rest[0];
    }
    assert n == |w|;
    assert s[..n] == w && s[n..] == rest;
  }

  /** Whitespace before the first token is skipped. */
  lemma TokensSkipWhitespace(sep: char, rest: string)
    requires IsAsciiWhitespace(sep)
    ensures Tokens([sep] + rest) == Tokens(rest)
  {
    assert ([sep] + rest)[1..] == rest;
  }

  /** Tokenising splits at any whitespace character: the tokens of the text
      before it, then those of the text after it. With `TokensOfWord` this
      pins the tokens down as the maximal runs of non-whitespace, in order. */
  lemma {:induction false} TokensAppend(a: string, c: char, b: string)
    requires IsAsciiWhitespace(c)
    ensures Tokens(a + [c] + b) == Tokens(a) + Tokens(b)
    decreases |a|
  {
    var s := a + [c] + b;
    if a == [] {
      assert s == [c] + b;
      TokensSkipWhitespace(c, b);
    } else if IsAsciiWhitespace(a[0]) {
      assert s[1..] == a[1..] + [c] + b;
      TokensAppend(a[1..], c, b);
    } else {
      var n := WordLength(a);
      WordLengthBeforeWhitespace(a, c, b);
      assert s[..n] == a[..n];
      assert s[n..] == a[n..] + [c] + b;
      TokensAppend(a[n..], c, b);
    }
  }

  /** The first run of `a` is also the first run of `a + [c] + b`. */
  lemma WordLengthBeforeWhitespace(a: string, c: char, b: string)
    requires IsAsciiWhitespace(c)
    ensures WordLength(a + [c] + b) == WordLength(a)
  {
    var s, n := a + [c] + b, WordLength(a);
    assert s[n] == if n < |a| then a[n] else c;
  }

  // ------------------------------------------------------ numbers as text

  /** The ASCII digit for `d`. */
  function DigitChar(d: nat): char
    requires d < 10
  {
    (('0' as int) + d) as char
  }

  predicate AllDigits(s: string) {
    forall k :: 0 <= k < |s| ==> '0' <= s[k] <= '9'
  }

  /** The value of a string of decimal digits. */
  function DigitsValue(s: string): nat
    requires AllDigits(s)
  {
    if s == [] then 0 else 10 * DigitsValue(s[..|s| - 1]) + (s[|s| - 1] as int - '0' as int)
  }

  /** `usize::to_string`: decimal digits, no sign, no leading zero. */
  function Decimal(n: nat): (r: string)
    ensures r != [] && AllDigits(r)
    ensures r[0] == '0' ==> n == 0 && r == "0"
    decreases n
  {
    if n < 10 then [DigitChar(n)] else Decimal(n / 10) + [DigitChar(n % 10)]
  }

  /** Reading back the digits that `Decimal` writes gives the number. */
  lemma {:induction false} DecimalValue(n: nat)
    ensures DigitsValue(Decimal(n)) == n
    decreases n
  {
    if n >= 10 {
      DecimalValue(n / 10);
      var d := Decimal(n);
      assert d[..|d| - 1] == Decimal(n / 10);
    }
  }

  /** `Decimal` is one-to-one. */
  lemma DecimalInjective(m: nat, n: nat)
    requires Decimal(m) == Decimal(n)
    ensures m == n
  {
    DecimalValue(m);
    DecimalValue(n);
  }

  const U64_LIMIT: nat := 0x1_0000_0000_0000_0000

  /** `str::parse::<u64>()`: an optional `+`, then at least one decimal digit,
      denoting a value below 2^64; anything else is an error (`None`). */
  function ParseU64(s: string): Option<nat> {
    var digits := if s != [] && s[0] == '+' then s[1..] else s;
    if digits != [] && AllDigits(digits) && DigitsValue(digits) < U64_LIMIT
    then Some(DigitsValue(digits))
    else None
  }

  /** Every `u64` survives printing and parsing. */
  lemma ParseDecimal(n: nat)
    requires n < U64_LIMIT
    ensures ParseU64(Decimal(n)) == Some(n)
  {
    DecimalValue(n);
  }

  /** Text with a character that is neither a digit nor a leading `+` does not parse. */
  lemma ParseRejectsNonDigit(s: string, k: nat)
    requires k < |s| && !('0' <= s[k] <= '9')
    requires k == 0 ==> s[0] != '+'
    ensures ParseU64(s) == None
  {
    var digits := if s != [] && s[0] == '+' then s[1..] else s;
    if s[0] == '+' {
      assert digits[k - 1] == s[k];
    } else {
      assert digits[k] == s[k];
    }
  }

  // ------------------------------------------------------------- UTF-8

  /** The number of bytes UTF-8 uses for `c`. */
  function Utf8Width(c: char): nat {
    if c as int < 0x80 then 1
    else if c as int < 0x800 then 2
    else if c as int < 0x1_0000 then 3
    else 4
  }

  /** `String::len`: the length in bytes of the UTF-8 encoding. */
  function Utf8Length(s: string): nat {
    if s == [] then 0 else Utf8Width(s[0]) + Utf8Length(s[1..])
  }

  /** An octet. */
  type byte = x: int | 0 <= x < 256

  /** The UTF-8 bytes of one character (RFC 3629, section 3). */
  function Utf8Char(c: char): (r: seq<byte>)
    ensures |r| == Utf8Width(c)
  {
    var cp := c as int;
    if cp < 0x80 then [cp]
    else if cp < 0x800 then [0xC0 + cp / 0x40, 0x80 + cp % 0x40]
    else if cp < 0x1_0000 then [0xE0 + cp / 0x1000, 0x80 + (cp / 0x40) % 0x40, 0x80 + cp % 0x40]
    else [0xF0 + cp / 0x4_0000, 0x80 + (cp / 0x1000) % 0x40, 0x80 + (cp / 0x40) % 0x40, 0x80 + cp % 0x40]
  }

  /** `String::as_bytes`: the UTF-8 encoding of `s`. */
  function Utf8Encode(s: string): (r: seq<byte>)
    ensures |r| == Utf8Length(s)
  {
    if s == [] then [] else Utf8Char(s[0]) + Utf8Encode(s[1..])
  }

  /** UTF-8 encodes text character by character, so it distributes over concatenation. */
  lemma {:induction false} Utf8Concat(a: string, b: string)
    ensures Utf8Encode(a + b) == Utf8Encode(a) + Utf8Encode(b)
    ensures Utf8Length(a + b) == Utf8Length(a) + Utf8Length(b)
    decreases |a|
  {
    if a != [] {
      assert (a + b)[0] == a[0];
      assert (a + b)[1..] == a[1..] + b;
      Utf8Concat(a[1..], b);
    } else {
      assert a + b == b;
    }
  }

  predicate IsAscii(s: string) {
    forall k :: 0 <= k < |s| ==> s[k] as int < 0x80
  }

  /** For ASCII text the byte length is the character count. */
  lemma {:induction false} Utf8AsciiLength(s: string)
    requires IsAscii(s)
    ensures Utf8Length(s) == |s|
  {
    if s != [] {
      Utf8AsciiLength(s[1..]);
    }
  }

  /** For ASCII text each byte is the code of the character at the same position. */
  lemma {:induction false} Utf8AsciiBytes(s: string)
    requires IsAscii(s)
    ensures |Utf8Encode(s)| == |s|
    ensures forall k :: 0 <= k < |s| ==> Utf8Encode(s)[k] == s[k] as int
  {
    Utf8AsciiLength(s);
    if s != [] {
      Utf8AsciiBytes(s[1..]);
      var e, tail := Utf8Encode(s), Utf8Encode(s[1..]);
      assert e == [s[0] as int] + tail;
      forall k | 0 <= k < |s| ensures e[k] == s[k] as int {
        if k > 0 {
          assert e[k] == tail[k - 1];
        }
      }
    }
  }
}
