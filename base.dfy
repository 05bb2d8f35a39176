/** Helpers shared by every part of the model: optional values and results,
    Python's rendering of integers (`hex`, `str`) and their parsers (`int(s, 16)`,
    `int(s)`), `str.join`, and little-endian byte sequences. */
module Base {

  datatype Option<+T> = None | Some(value: T)

  datatype Result<+T, +E> = Ok(value: T) | Err(error: E)

  newtype byte = b: int | 0 <= b < 256

  // ---------------------------------------------------------------------------
  // Digits
  // ---------------------------------------------------------------------------

  /** The lower-case character Python uses for digit `d`. */
  function DigitChar(d: nat): char
    requires d < 16
  {
    if d < 10 then ('0' as int + d) as char else ('a' as int + d - 10) as char
  }

  /** The value of a digit character in any base up to 16, either case. */
  function DigitValue(c: char): Option<nat>
  {
    if '0' <= c <= '9' then Some(c as int - '0' as int)
    else if 'a' <= c <= 'f' then Some(c as int - 'a' as int + 10)
    else if 'A' <= c <= 'F' then Some(c as int - 'A' as int + 10)
    else None
  }

  lemma DigitCharValue(d: nat)
    requires d < 16
    ensures DigitValue(DigitChar(d)) == Some(d)
  {
  }

  /** The digits of `n` in `base`, most significant first, without leading zeros. */
  function Digits(n: nat, base: nat): (s: string)
    requires 2 <= base <= 16
    ensures |s| >= 1
    decreases n
  {
    if n < base then [DigitChar(n)] else Digits(n / base, base) + [DigitChar(n % base)]
  }

  /** The value of a non-empty string of digits of `base`; None when a character
      is not such a digit (Python raises ValueError). */
  function DigitsValue(s: string, base: nat): Option<nat>
    requires 2 <= base <= 16
  {
    if |s| == 0 then None
    else
      var d := DigitValue(s[|s| - 1]);
      if d.None? || d.value >= base then None
      else if |s| == 1 then Some(d.value)
      else
        match DigitsValue(s[..|s| - 1], base)
        case None => None
        case Some(v) => Some(v * base + d.value)
  }

  /** Appending one digit multiplies the value by the base and adds the digit. */
  lemma DigitsValueSnoc(p: string, d: nat, base: nat)
    requires 2 <= base <= 16 && d < base
    requires DigitsValue(p, base).Some?
    ensures DigitsValue(p + [DigitChar(d)], base) == Some(DigitsValue(p, base).value * base + d)
  {
    var s := p + [DigitChar(d)];
    assert s[..|s| - 1] == p;
    DigitCharValue(d);
  }

  lemma DivModParts(n: nat, base: nat)
    requires base >= 2
    ensures (n / base) * base + n % base == n
  {
  }

  lemma {:induction false} DigitsRoundTrip(n: nat, base: nat)
    requires 2 <= base <= 16
    ensures DigitsValue(Digits(n, base), base) == Some(n)
    decreases n
  {
    if n < base {
      DigitCharValue(n);
    } else {
      DigitsRoundTrip(n / base, base);
      DigitsValueSnoc(Digits(n / base, base), n % base, base);
      DivModParts(n, base);
    }
  }

  lemma {:induction false} DigitsStartWithDigit(n: nat, base: nat)
    requires 2 <= base <= 16
    ensures DigitValue(Digits(n, base)[0]).Some?
    decreases n
  {
    if n < base {
      DigitCharValue(n);
    } else {
      DigitsStartWithDigit(n / base, base);
    }
  }

  // ---------------------------------------------------------------------------
  // Python's hex(n) and str(n) on integers, and their parsers
  // ---------------------------------------------------------------------------

  /** Python's `hex(n)`: "0x" and lower-case digits, "-0x" for negative numbers. */
  function Hex(n: int): string
  {
    if n < 0 then "-0x" + Digits(-n, 16) else "0x" + Digits(n, 16)
  }

  /** Python's `str(n)` for an integer. */
  function Str(n: int): string
  {
    if n < 0 then "-" + Digits(-n, 10) else Digits(n, 10)
  }

  /** An optional leading sign, as Python's `int` accepts it. */
  function SplitSign(s: string): (bool, string)
  {
    if |s| > 0 && s[0] == '-' then (true, s[1..])
    else if |s| > 0 && s[0] == '+' then (false, s[1..])
    else (false, s)
  }

  function Signed(negative: bool, v: nat): int
  {
    if negative then -(v as int) else v as int
  }

  /** The characters Python's `str.isspace` accepts, which `int` strips from
      both ends of its argument. */
  const Spaces: set<char> := {
      ' ', '\U{0009}', '\U{000A}', '\U{000B}', '\U{000C}', '\U{000D}', '\U{001C}', '\U{001D}',
      '\U{001E}', '\U{001F}', '\U{0085}', '\U{00A0}', '\U{1680}', '\U{2000}', '\U{2001}',
      '\U{2002}', '\U{2003}', '\U{2004}', '\U{2005}', '\U{2006}', '\U{2007}', '\U{2008}',
      '\U{2009}', '\U{200A}', '\U{2028}', '\U{2029}', '\U{202F}', '\U{205F}', '\U{3000}'
    }

  predicate IsSpace(c: char)
  {
    c in Spaces
  }

  /** `s` without its leading white space. */
  function StripLeft(s: string): (t: string)
    ensures |t| <= |s| && t == s[|s| - |t|..]
  {
    if |s| > 0 && IsSpace(s[0]) then StripLeft(s[1..]) else s
  }

  /** `s` without its trailing white space. */
  function StripRight(s: string): (t: string)
    ensures |t| <= |s| && t == s[..|t|]
  {
    if |s| > 0 && IsSpace(s[|s| - 1]) then StripRight(s[..|s| - 1]) else s
  }

  /** Python's `s.strip()`. */
  function Strip(s: string): string
  {
    StripRight(StripLeft(s))
  }

  /** A string that neither starts nor ends with white space is its own
      strip. */
  lemma StripUnspaced(s: string)
    requires |s| > 0 && !IsSpace(s[0]) && !IsSpace(s[|s| - 1])
    ensures Strip(s) == s
  {
  }

  /** The digits of an integer literal with its underscores removed, or None
      where they are misplaced: Python's `int` accepts one underscore between
      two digits, and (after a base prefix, `afterDigit` true) one before the
      first digit, but none doubled and none at the end. */
  function Ungroup(s: string, afterDigit: bool): (r: Option<string>)
    ensures r.Some? ==> |r.value| <= |s|
  {
    if |s| == 0 then Some([])
    else if s[0] == '_' then
      if !afterDigit || |s| == 1 || s[1] == '_' then None else Ungroup(s[1..], false)
    else
      match Ungroup(s[1..], true)
      case None => None
      case Some(t) => Some([s[0]] + t)
  }

  /** A string without underscores is left as it is. */
  lemma {:induction false} UngroupPlain(s: string, afterDigit: bool)
    requires forall i :: 0 <= i < |s| ==> s[i] != '_'
    ensures Ungroup(s, afterDigit) == Some(s)
  {
    if |s| > 0 {
      UngroupPlain(s[1..], true);
      assert [s[0]] + s[1..] == s;
    }
  }

  /** Python's `int(s, 16)`: surrounding white space, an optional sign, an
      optional "0x"/"0X" prefix, then hex digits of either case, single
      underscores allowed between them (and right after the prefix); None
      where Python raises ValueError. */
  function ParseHex(s: string): Option<int>
  {
    var (negative, rest) := SplitSign(Strip(s));
    var prefixed := |rest| >= 2 && rest[0] == '0' && (rest[1] == 'x' || rest[1] == 'X');
    var body := if prefixed then rest[2..] else rest;
    match Ungroup(body, prefixed)
    case None => None
    case Some(digits) =>
      match DigitsValue(digits, 16)
      case None => None
      case Some(v) => Some(Signed(negative, v))
  }

  /** Python's `int(s)`: surrounding white space, an optional sign, then
      decimal digits, single underscores allowed between them; None where
      Python raises ValueError. */
  function ParseDecimal(s: string): Option<int>
  {
    var (negative, rest) := SplitSign(Strip(s));
    match Ungroup(rest, false)
    case None => None
    case Some(digits) =>
      match DigitsValue(digits, 10)
      case None => None
      case Some(v) => Some(Signed(negative, v))
  }

  /** A single digit reads as itself. */
  lemma UngroupDigit(c: char, afterDigit: bool)
    requires c != '_'
    ensures Ungroup([c], afterDigit) == Some([c])
  {
    assert [c][1..] == [];
    assert [c] + [] == [c];
  }

  /** `int(" 7\n")` is 7: surrounding white space is stripped. */
  lemma StripsSpaces()
    ensures ParseDecimal(" 7\n") == Some(7)
  {
    DigitNotSpace('7');
    assert StripLeft(" 7\n") == "7\n" by {
      assert " 7\n"[1..] == "7\n";
    }
    assert StripRight("7\n") == "7" by {
      assert "7\n"[..1] == "7";
    }
    assert SplitSign("7") == (false, "7");
    UngroupDigit('7', false);
  }

  /** `int(s)` is the signed value of the digits left once white space and
      sign are split off and the underscores dropped. */
  lemma DecimalParts(s: string, negative: bool, rest: string, digits: string, v: nat)
    requires SplitSign(Strip(s)) == (negative, rest)
    requires Ungroup(rest, false) == Some(digits)
    requires DigitsValue(digits, 10) == Some(v)
    ensures ParseDecimal(s) == Some(Signed(negative, v))
  {
  }

  /** The same for `int(s, 16)` when the rest starts with the "0x" prefix. */
  lemma HexParts(s: string, negative: bool, rest: string, digits: string, v: nat)
    requires SplitSign(Strip(s)) == (negative, rest)
    requires |rest| >= 2 && rest[..2] == "0x"
    requires Ungroup(rest[2..], true) == Some(digits)
    requires DigitsValue(digits, 16) == Some(v)
    ensures ParseHex(s) == Some(Signed(negative, v))
  {
    assert rest[0] == rest[..2][0];
    assert rest[1] == rest[..2][1];
  }

  /** The value of a two-digit string. */
  lemma TwoDigits(a: char, b: char, base: nat)
    requires 2 <= base <= 16
    requires DigitValue(a).Some? && DigitValue(a).value < base
    requires DigitValue(b).Some? && DigitValue(b).value < base
    ensures DigitsValue([a, b], base) == Some(DigitValue(a).value * base + DigitValue(b).value)
  {
    assert [a, b][..1] == [a];
  }

  /** A string starting and ending with a digit and holding no sign is left as it is. */
  lemma UnspacedSign(s: string)
    requires |s| > 0 && DigitValue(s[0]).Some? && DigitValue(s[|s| - 1]).Some?
    ensures SplitSign(Strip(s)) == (false, s)
  {
    DigitNotSpace(s[0]);
    DigitNotSpace(s[|s| - 1]);
    StripUnspaced(s);
  }

  /** An underscore between two digits is dropped. */
  lemma UngroupBetween(a: char, b: char)
    requires DigitValue(a).Some? && DigitValue(b).Some?
    ensures Ungroup([a, '_', b], false) == Some([a, b])
  {
    DigitNotSpace(a);
    DigitNotSpace(b);
    UngroupDigit(b, false);
    assert ['_', b][1..] == [b];
    assert [a, '_', b][1..] == ['_', b];
    assert [a] + [b] == [a, b];
  }

  /** An underscore right after the prefix, before two digits, is dropped. */
  lemma UngroupAfterPrefix(a: char, b: char)
    requires DigitValue(a).Some? && DigitValue(b).Some?
    ensures Ungroup(['_', a, b], true) == Some([a, b])
  {
    DigitNotSpace(a);
    DigitNotSpace(b);
    UngroupDigit(b, true);
    assert [a, b][1..] == [b];
    assert [a] + [b] == [a, b];
    assert ['_', a, b][1..] == [a, b];
  }

  /** A doubled, leading or trailing underscore is refused. */
  lemma RefusesMisplacedUnderscores()
    ensures Ungroup("1__0", false) == None
    ensures Ungroup("_1", false) == None
    ensures Ungroup("1_", false) == None
  {
    assert "1__0"[1..] == "__0";
    assert "1_"[1..] == "_";
  }

  /** Every character of `digits(n)` is a digit of its base. */
  lemma {:induction false} DigitsAreDigits(n: nat, base: nat)
    requires 2 <= base <= 16
    ensures forall i :: 0 <= i < |Digits(n, base)| ==> DigitValue(Digits(n, base)[i]).Some?
    decreases n
  {
    if n < base {
      DigitCharValue(n);
    } else {
      DigitsAreDigits(n / base, base);
      DigitCharValue(n % base);
    }
  }

  /** A digit character is neither white space nor an underscore. */
  lemma DigitNotSpace(c: char)
    requires DigitValue(c).Some?
    ensures !IsSpace(c) && c != '_'
  {
  }

  /** The digits of `n` are not touched by strip, and hold no underscore. */
  lemma DigitsPlain(n: nat, base: nat)
    requires 2 <= base <= 16
    ensures forall i :: 0 <= i < |Digits(n, base)| ==> Digits(n, base)[i] != '_'
    ensures !IsSpace(Digits(n, base)[0]) && !IsSpace(Digits(n, base)[|Digits(n, base)| - 1])
  {
    var ds := Digits(n, base);
    DigitsAreDigits(n, base);
    forall i | 0 <= i < |ds|
      ensures ds[i] != '_'
    {
      DigitNotSpace(ds[i]);
    }
    DigitNotSpace(ds[0]);
    DigitNotSpace(ds[|ds| - 1]);
  }

  /** hex(n) is unchanged by strip and splits into its sign and "0x" followed
      by the digits of |n|. */
  lemma HexSign(n: int)
    ensures var m := if n < 0 then -n else n;
            SplitSign(Strip(Hex(n))) == (n < 0, "0x" + Digits(m, 16))
  {
    var m := if n < 0 then -n else n;
    var s := Hex(n);
    DigitsPlain(m, 16);
    assert s[|s| - 1] == Digits(m, 16)[|Digits(m, 16)| - 1];
    StripUnspaced(s);
    if n < 0 {
      assert s[1..] == "0x" + Digits(m, 16);
    }
  }

  lemma HexRoundTrip(n: int)
    ensures ParseHex(Hex(n)) == Some(n)
  {
    var m := if n < 0 then -n else n;
    var ds := Digits(m, 16);
    HexSign(n);
    DigitsRoundTrip(m, 16);
    DigitsPlain(m, 16);
    UngroupPlain(ds, true);
    assert ("0x" + ds)[..2] == "0x";
    assert ("0x" + ds)[2..] == ds;
    HexParts(Hex(n), n < 0, "0x" + ds, ds, m);
  }

  /** str(n) is unchanged by strip and splits into its sign and the digits
      of |n|. */
  lemma StrSign(n: int)
    ensures var m := if n < 0 then -n else n;
            SplitSign(Strip(Str(n))) == (n < 0, Digits(m, 10))
  {
    var m := if n < 0 then -n else n;
    var s := Str(n);
    DigitsPlain(m, 10);
    DigitsStartWithDigit(m, 10);
    assert s[|s| - 1] == Digits(m, 10)[|Digits(m, 10)| - 1];
    StripUnspaced(s);
  }

  lemma DecimalRoundTrip(n: int)
    ensures ParseDecimal(Str(n)) == Some(n)
  {
    var m := if n < 0 then -n else n;
    StrSign(n);
    DigitsRoundTrip(m, 10);
    DigitsPlain(m, 10);
    UngroupPlain(Digits(m, 10), false);
    DecimalParts(Str(n), n < 0, Digits(m, 10), Digits(m, 10), m);
  }

  /** Decimal digits are the characters '0' to '9'. */
  lemma {:induction false} DecimalDigitChars(n: nat)
    ensures forall i :: 0 <= i < |Digits(n, 10)| ==> '0' <= Digits(n, 10)[i] <= '9'
    decreases n
  {
    if n >= 10 {
      DecimalDigitChars(n / 10);
    }
  }

  /** `str(n)` is an optional '-' followed by decimal digits, so it holds no
      other character (no ';', '[' or ']'). */
  lemma StrChars(n: int)
    ensures |Str(n)| >= 1
    ensures forall i :: 0 <= i < |Str(n)| ==> Str(n)[i] == '-' || '0' <= Str(n)[i] <= '9'
  {
    DecimalDigitChars(if n < 0 then -n else n);
  }

  /** `hex` is injective: distinct numbers never render alike, so a hex string
      can serve as a dictionary key for an address. */
  lemma HexInjective(m: int, n: int)
    requires Hex(m) == Hex(n)
    ensures m == n
  {
    HexRoundTrip(m);
    HexRoundTrip(n);
  }

  // ---------------------------------------------------------------------------
  // str.join
  // ---------------------------------------------------------------------------

  /** Python's `sep.join(parts)`. */
  function Join(sep: string, parts: seq<string>): string
  {
    if |parts| == 0 then ""
    else if |parts| == 1 then parts[0]
    else parts[0] + sep + Join(sep, parts[1..])
  }

  /** Python's `s.split(c)` for a one-character separator: the parts between
      the separators, an empty part wherever two are adjacent or one ends
      the string. */
  function Split(s: string, c: char): (parts: seq<string>)
    ensures |parts| >= 1
    decreases |s|
  {
    if |s| == 0 then [""]
    else
      var rest := Split(s[1..], c);
      if s[0] == c then [""] + rest else [[s[0]] + rest[0]] + rest[1..]
  }

  /** A string without the separator is one part. */
  lemma {:induction false} SplitNoSeparator(a: string, c: char)
    requires c !in a
    ensures Split(a, c) == [a]
    decreases |a|
  {
    if |a| > 0 {
      SplitNoSeparator(a[1..], c);
      assert [a[0]] + a[1..] == a;
    }
  }

  /** Splitting at the first separator: the part before it comes first. */
  lemma {:induction false} SplitFirst(a: string, b: string, c: char)
    requires c !in a
    ensures Split(a + [c] + b, c) == [a] + Split(b, c)
    decreases |a|
  {
    var s := a + [c] + b;
    if |a| == 0 {
      assert s[1..] == b;
    } else {
      assert s[1..] == a[1..] + [c] + b;
      SplitFirst(a[1..], b, c);
      assert [a[0]] + a[1..] == a;
    }
  }

  /** Splitting undoes joining when no part holds the separator. */
  lemma {:induction false} SplitJoin(parts: seq<string>, c: char)
    requires |parts| >= 1
    requires forall i :: 0 <= i < |parts| ==> c !in parts[i]
    ensures Split(Join([c], parts), c) == parts
    decreases |parts|
  {
    if |parts| == 1 {
      SplitNoSeparator(parts[0], c);
    } else {
      SplitFirst(parts[0], Join([c], parts[1..]), c);
      SplitJoin(parts[1..], c);
      assert [parts[0]] + parts[1..] == parts;
    }
  }

  /** "a,b" texts with a separator-free first part are equal exactly when
      both parts are. */
  lemma SeparatedPairInjective(a1: string, b1: string, a2: string, b2: string, c: char)
    requires c !in a1 && c !in a2
    ensures a1 + [c] + b1 == a2 + [c] + b2 <==> a1 == a2 && b1 == b2
  {
    if a1 + [c] + b1 == a2 + [c] + b2 {
      SplitFirst(a1, b1, c);
      SplitFirst(a2, b2, c);
      assert ([a1] + Split(b1, c))[0] == a1 && ([a2] + Split(b2, c))[0] == a2;
      assert b1 == (a1 + [c] + b1)[|a1| + 1..];
      assert b2 == (a2 + [c] + b2)[|a2| + 1..];
    }
  }

  /** `t in s` on Python strings: `t` occurs in `s` as a contiguous part. */
  ghost predicate Contains(s: string, t: string)
  {
    exists p: string, q: string :: s == p + t + q
  }

  /** Each part of a concatenation occurs in it. */
  lemma ContainsParts(a: string, b: string, c: string)
    ensures Contains(a + b + c, a) && Contains(a + b + c, c)
  {
    var e: string := [];
    assert a + b + c == e + a + (b + c);
    assert a + b + c == (a + b) + c + e;
  }

  // ---------------------------------------------------------------------------
  // Little-endian byte sequences
  // ---------------------------------------------------------------------------

  function Pow256(n: nat): (p: nat)
    ensures p >= 1
  {
    if n == 0 then 1 else 256 * Pow256(n - 1)
  }

  /** The number whose little-endian bytes are `bs` (bs[0] least significant). */
  function FromBytes(bs: seq<byte>): nat
  {
    if |bs| == 0 then 0 else bs[0] as nat + 256 * FromBytes(bs[1..])
  }

  /** The `n` low-order bytes of `x`, least significant first. */
  function ToBytes(x: nat, n: nat): (bs: seq<byte>)
    ensures |bs| == n
  {
    if n == 0 then [] else [(x % 256) as byte] + ToBytes(x / 256, n - 1)
  }

  function Reverse<T>(s: seq<T>): (r: seq<T>)
    ensures |r| == |s|
    ensures forall i :: 0 <= i < |s| ==> r[i] == s[|s| - 1 - i]
  {
    if |s| == 0 then [] else Reverse(s[1..]) + [s[0]]
  }

  lemma {:induction false} FromBytesBound(bs: seq<byte>)
    ensures FromBytes(bs) < Pow256(|bs|)
  {
    if |bs| > 0 {
      FromBytesBound(bs[1..]);
    }
  }

  /** Reading back the bytes of a number that fits in `n` bytes gives the number. */
  lemma {:induction false} FromToBytes(x: nat, n: nat)
    requires x < Pow256(n)
    ensures FromBytes(ToBytes(x, n)) == x
  {
    if n > 0 {
      assert x / 256 < Pow256(n - 1);
      FromToBytes(x / 256, n - 1);
      var bs := ToBytes(x, n);
      assert bs[1..] == ToBytes(x / 256, n - 1);
    }
  }

  /** Splitting a number made of bytes gives back those bytes. */
  lemma {:induction false} ToFromBytes(bs: seq<byte>)
    ensures ToBytes(FromBytes(bs), |bs|) == bs
  {
    if |bs| > 0 {
      ToFromBytes(bs[1..]);
      var x := FromBytes(bs);
      assert x / 256 == FromBytes(bs[1..]) && x % 256 == bs[0] as int;
    }
  }
}
