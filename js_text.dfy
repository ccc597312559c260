/**
 * The JavaScript string operations the components rely on: `String.prototype.trim`,
 * `parseInt` with no radix, `Number.prototype.toString` on integers, and `split` on one
 * separator character.
 */
module JsText {
  import opened Wrappers

  /** WhiteSpace and LineTerminator code points, the set `trim` and `parseInt` skip. */
  predicate IsWhitespace(c: char) {
    var n := c as int;
    n == 0x09 || n == 0x0A || n == 0x0B || n == 0x0C || n == 0x0D || n == 0x20 ||
    n == 0xA0 || n == 0x1680 || (0x2000 <= n <= 0x200A) || n == 0x2028 || n == 0x2029 ||
    n == 0x202F || n == 0x205F || n == 0x3000 || n == 0xFEFF
  }

  predicate AllWhitespace(s: string) {
    forall i | 0 <= i < |s| :: IsWhitespace(s[i])
  }

  /** `trimStart`: drop leading whitespace. */
  function TrimStart(s: string): (r: string)
    ensures |r| <= |s| && r == s[|s| - |r|..]
    ensures AllWhitespace(s[..|s| - |r|])
    ensures r == [] || !IsWhitespace(r[0])
  {
    if s != [] && IsWhitespace(s[0]) then TrimStart(s[1..]) else s
  }

  /** `trimEnd`: drop trailing whitespace. */
  function TrimEnd(s: string): (r: string)
    ensures |r| <= |s| && r == s[..|r|]
    ensures AllWhitespace(s[|r|..])
    ensures r == [] || !IsWhitespace(r[|r| - 1])
  {
    if s != [] && IsWhitespace(s[|s| - 1]) then TrimEnd(s[..|s| - 1]) else s
  }

  /** `trim`: the input without its leading and trailing whitespace. */
  function Trim(s: string): (r: string)
  {
    TrimEnd(TrimStart(s))
  }

  /** `trim` keeps the slice `s[i..j]` and cuts off only whitespace around it. */
  lemma TrimCuts(s: string) returns (i: nat, j: nat)
    ensures i <= j <= |s| && Trim(s) == s[i..j]
    ensures AllWhitespace(s[..i]) && AllWhitespace(s[j..])
    ensures TrimStart(s) == s[i..]
  {
    var t := TrimStart(s);
    i := |s| - |t|;
    TrimEndCut(s, i, t);
    j := i + |TrimEnd(t)|;
  }

  /** What `TrimEnd` keeps of a suffix `t` of `s` is a slice of `s` followed by blanks. */
  lemma TrimEndCut(s: string, i: nat, t: string)
    requires i <= |s| && t == s[i..]
    ensures var j := i + |TrimEnd(t)|;
      j <= |s| && TrimEnd(t) == s[i..j] && AllWhitespace(s[j..])
  {
    var u := TrimEnd(t);
    var j := i + |u|;
    assert s[i..j] == t[..|u|];
    forall k | 0 <= k < |s[j..]| ensures IsWhitespace(s[j..][k]) {
      assert s[j..][k] == t[|u|..][k];
    }
  }

  /** Trimming yields a slice of the input that starts and ends with a non-whitespace
      character, and everything cut off on either side is whitespace. */
  lemma TrimIsSlice(s: string)
    ensures exists i, j :: 0 <= i <= j <= |s| && Trim(s) == s[i..j] &&
                           AllWhitespace(s[..i]) && AllWhitespace(s[j..])
    ensures Trim(s) == [] || (!IsWhitespace(Trim(s)[0]) && !IsWhitespace(Trim(s)[|Trim(s)| - 1]))
  {
    var i, j := TrimCuts(s);
    var t := TrimStart(s);
    if Trim(s) != [] {
      assert Trim(s)[0] == t[0];
    }
  }

  /** A string trims to the empty string exactly when it is blank, which is when
      `!s.trim()` holds in JavaScript. */
  lemma TrimEmptyIffBlank(s: string)
    ensures Trim(s) == [] <==> AllWhitespace(s)
  {
    var t := TrimStart(s);
    if Trim(s) == [] {
      assert AllWhitespace(t[|TrimEnd(t)|..]);
      assert t == [];
      assert s == s[..|s|];
    } else {
      TrimIsSlice(s);
      assert !IsWhitespace(Trim(s)[0]);
      assert Trim(s)[0] == s[|s| - |t|];
    }
  }

  /** Trimming twice is the same as trimming once. */
  lemma TrimIdempotent(s: string)
    ensures Trim(Trim(s)) == Trim(s)
  {
    var r := Trim(s);
    if r != [] {
      TrimIsSlice(s);
      assert TrimStart(r) == r;
      assert TrimEnd(r) == r;
    }
  }

  // ---------------------------------------------------------------------------
  // parseInt(string) with no radix argument

  predicate IsDecimalDigit(c: char) { '0' <= c <= '9' }

  predicate IsDigitIn(c: char, radix: nat) {
    if radix == 16 then IsDecimalDigit(c) || ('a' <= c <= 'f') || ('A' <= c <= 'F')
    else IsDecimalDigit(c)
  }

  function DigitValue(c: char): (d: nat)
    ensures IsDecimalDigit(c) ==> d == c as int - '0' as int
  {
    if IsDecimalDigit(c) then c as int - '0' as int
    else if 'a' <= c <= 'f' then c as int - 'a' as int + 10
    else if 'A' <= c <= 'F' then c as int - 'A' as int + 10
    else 0
  }

  /** The longest prefix of `s` made of digits of the radix. */
  function DigitPrefix(s: string, radix: nat): (r: string)
    ensures |r| <= |s| && r == s[..|r|]
    ensures forall i | 0 <= i < |r| :: IsDigitIn(r[i], radix)
    ensures |r| < |s| ==> !IsDigitIn(s[|r|], radix)
  {
    if s != [] && IsDigitIn(s[0], radix) then [s[0]] + DigitPrefix(s[1..], radix) else []
  }

  /** The value of a digit string, most significant digit first. */
  function DigitsValue(ds: string, radix: nat): nat
  {
    if ds == [] then 0 else DigitsValue(ds[..|ds| - 1], radix) * radix + DigitValue(ds[|ds| - 1])
  }

  /** `parseInt(s)`: None stands for NaN. Leading whitespace is skipped, one sign is
      accepted, a `0x`/`0X` prefix switches to radix 16, and the longest run of digits
      that follows is read; anything after that run is ignored. */
  function ParseInt(s: string): (r: Option<int>)
  {
    var t := TrimStart(s);
    var negative := t != [] && t[0] == '-';
    var unsigned := if t != [] && (t[0] == '-' || t[0] == '+') then t[1..] else t;
    var hex := |unsigned| >= 2 && unsigned[0] == '0' && (unsigned[1] == 'x' || unsigned[1] == 'X');
    var radix := if hex then 16 else 10;
    var body := if hex then unsigned[2..] else unsigned;
    var digits := DigitPrefix(body, radix);
    if digits == [] then None
    else if negative then Some(0 - DigitsValue(digits, radix) as int)
    else Some(DigitsValue(digits, radix))
  }

  predicate NoDecimalDigits(s: string) {
    forall i | 0 <= i < |s| :: !IsDecimalDigit(s[i])
  }

  lemma NoDecimalDigitsSuffix(s: string, k: nat)
    requires k <= |s| && NoDecimalDigits(s)
    ensures NoDecimalDigits(s[k..])
  {
    forall i | 0 <= i < |s[k..]| ensures !IsDecimalDigit(s[k..][i]) {
      assert s[k..][i] == s[k + i];
    }
  }

  /** A string with no digit at all after optional whitespace and sign is NaN. */
  lemma ParseIntNoDigits(s: string)
    requires NoDecimalDigits(s)
    ensures ParseInt(s) == None
  {
    var t := TrimStart(s);
    NoDecimalDigitsSuffix(s, |s| - |t|);
    var unsigned := if t != [] && (t[0] == '-' || t[0] == '+') then t[1..] else t;
    if t != [] && (t[0] == '-' || t[0] == '+') {
      NoDecimalDigitsSuffix(t, 1);
    }
    assert NoDecimalDigits(unsigned);
    assert unsigned == [] || !IsDigitIn(unsigned[0], 10);
  }

  // ---------------------------------------------------------------------------
  // Number.prototype.toString on integers

  function DecimalDigit(d: nat): (c: char)
    requires d < 10
    ensures IsDecimalDigit(c) && DigitValue(c) == d
  {
    ('0' as int + d) as char
  }

  /** The decimal digits of a natural number, without leading zeros. */
  function NatToString(n: nat): (r: string)
    ensures r != [] && forall i | 0 <= i < |r| :: IsDecimalDigit(r[i])
    decreases n
  {
    if n < 10 then [DecimalDigit(n)] else NatToString(n / 10) + [DecimalDigit(n % 10)]
  }

  /** `n.toString()` for an integer. */
  function IntToString(n: int): (r: string)
    ensures r != []
  {
    if n < 0 then "-" + NatToString(-n) else NatToString(n)
  }

  lemma {:induction false} NatToStringValue(n: nat)
    ensures DigitsValue(NatToString(n), 10) == n
    decreases n
  {
    var r := NatToString(n);
    if n >= 10 {
      NatToStringValue(n / 10);
      assert r[..|r| - 1] == NatToString(n / 10);
    }
  }

  /** `NatToString` never starts with `0x`: only 0 itself starts with the digit 0. */
  lemma NatToStringNoHexPrefix(n: nat)
    ensures |NatToString(n)| >= 2 ==> NatToString(n)[1] != 'x' && NatToString(n)[1] != 'X'
  {
  }

  /** Parsing the text of an integer gives the integer back. */
  lemma ParseIntOfIntToString(n: int)
    ensures ParseInt(IntToString(n)) == Some(n)
  {
    var m: nat := if n < 0 then -n else n;
    var ds := NatToString(m);
    NatToStringValue(m);
    NatToStringNoHexPrefix(m);
    var s := IntToString(n);
    assert !IsWhitespace(s[0]);
    assert TrimStart(s) == s;
    var unsigned := if n < 0 then s[1..] else s;
    assert unsigned == ds;
    assert DigitPrefix(ds, 10) == ds by {
      DigitPrefixWhole(ds);
    }
  }

  /** Different integers print differently. */
  lemma IntToStringInjective(a: int, b: int)
    requires IntToString(a) == IntToString(b)
    ensures a == b
  {
    ParseIntOfIntToString(a);
    ParseIntOfIntToString(b);
  }

  lemma {:induction false} DigitPrefixWhole(ds: string)
    requires forall i | 0 <= i < |ds| :: IsDecimalDigit(ds[i])
    ensures DigitPrefix(ds, 10) == ds
  {
    if ds != [] {
      DigitPrefixWhole(ds[1..]);
    }
  }

  // ---------------------------------------------------------------------------
  // split on one separator character

  /** `s.split(sep)`: the pieces between occurrences of `sep`, always at least one. */
  function Split(s: string, sep: char): (r: seq<string>)
    ensures |r| >= 1
    ensures forall k, i | 0 <= k < |r| && 0 <= i < |r[k]| :: r[k][i] != sep
  {
    if s == [] then [[]]
    else
      var rest := Split(s[1..], sep);
      if s[0] == sep then [[]] + rest else [[s[0]] + rest[0]] + rest[1..]
  }

  /** `pieces.join(sep)`. */
  function Join(pieces: seq<string>, sep: char): string
    requires |pieces| >= 1
  {
    if |pieces| == 1 then pieces[0] else pieces[0] + [sep] + Join(pieces[1..], sep)
  }

  /** Joining the pieces of a split with the same separator restores the string. */
  lemma {:induction false} JoinSplit(s: string, sep: char)
    ensures Join(Split(s, sep), sep) == s
  {
    if s != [] {
      var rest := Split(s[1..], sep);
      JoinSplit(s[1..], sep);
      if s[0] != sep {
        var r := Split(s, sep);
        if |rest| == 1 {
          assert r == [[s[0]] + rest[0]];
        } else {
          assert r[1..] == rest[1..];
        }
      }
    }
  }

  // ---------------------------------------------------------------------------
  // comparing strings

  /** `a` sorts before `b` character by character, a proper prefix first. */
  predicate StrLess(a: string, b: string) {
    if a == [] then b != []
    else if b == [] then false
    else if a[0] != b[0] then a[0] < b[0]
    else StrLess(a[1..], b[1..])
  }

  lemma {:induction false} StrLessIrreflexive(a: string)
    ensures !StrLess(a, a)
  {
    if a != [] {
      StrLessIrreflexive(a[1..]);
    }
  }

  lemma {:induction false} StrLessTransitive(a: string, b: string, c: string)
    requires StrLess(a, b) && StrLess(b, c)
    ensures StrLess(a, c)
  {
    if a != [] && b != [] && c != [] && a[0] == b[0] && b[0] == c[0] {
      StrLessTransitive(a[1..], b[1..], c[1..]);
    }
  }

  lemma {:induction false} StrLessTotal(a: string, b: string)
    requires a != b
    ensures StrLess(a, b) || StrLess(b, a)
  {
    if a != [] && b != [] && a[0] == b[0] {
      assert a == [a[0]] + a[1..];
      assert b == [b[0]] + b[1..];
      StrLessTotal(a[1..], b[1..]);
    }
  }
}
