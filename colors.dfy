/** Colour handling of the background widget: the CSS colour parser and its
    serialiser, linear interpolation between colours and the cubic easing curve
    of the gradient transition. JavaScript numbers are modelled as reals plus NaN. */
module Colors {

  datatype Option<T> = None | Some(value: T)

  /** A JavaScript number as this code can produce it: a finite value or NaN. */
  datatype Num = Finite(v: real) | NaN

  /** The `{ r, g, b }` records built by the parser and by the transition. */
  datatype Rgb = Rgb(r: Num, g: Num, b: Num)

  const Black := Rgb(Finite(0.0), Finite(0.0), Finite(0.0))

  function FromInt(n: int): Num { Finite(n as real) }

  function Min(a: real, b: real): real { if a <= b then a else b }
  function Max(a: real, b: real): real { if a <= b then b else a }

  /** An integer-valued finite number. */
  predicate IsIntegral(n: Num) { n.Finite? && n.v == n.v.Floor as real }

  /** An integral channel value in [0, 255]. */
  predicate IsByte(n: Num) { IsIntegral(n) && 0.0 <= n.v <= 255.0 }

  predicate IsByteColor(c: Rgb) { IsByte(c.r) && IsByte(c.g) && IsByte(c.b) }

  predicate IsFiniteColor(c: Rgb) { c.r.Finite? && c.g.Finite? && c.b.Finite? }

  // ---------------------------------------------------------------------------
  // Whitespace and String.prototype.trim
  // ---------------------------------------------------------------------------

  /** ECMAScript WhiteSpace and LineTerminator: what `trim`, `parseInt` and
      the regular-expression class `\s` skip. */
  predicate IsSpace(c: char) {
    c == '\t' || c == '\n' || c == '\U{B}' || c == '\U{C}' || c == '\r' || c == ' '
    || c == '\U{A0}' || c == '\U{1680}' || ('\U{2000}' <= c <= '\U{200A}')
    || c == '\U{2028}' || c == '\U{2029}' || c == '\U{202F}' || c == '\U{205F}'
    || c == '\U{3000}' || c == '\U{FEFF}'
  }

  /** Drops leading whitespace; this is also the greedy `\s*` of a regular
      expression. What remains does not start with whitespace; `TrimStartDrops`
      says what was dropped. */
  function TrimStart(s: string): (t: string)
    ensures |t| <= |s|
    ensures t == [] || !IsSpace(t[0])
  {
    if |s| > 0 && IsSpace(s[0]) then TrimStart(s[1..]) else s
  }

  /** `TrimStart` keeps a suffix of its input and drops only whitespace. Kept
      apart from the function's contract, which every use of the parser sees. */
  lemma {:induction false} TrimStartDrops(s: string)
    ensures TrimStart(s) == s[|s| - |TrimStart(s)|..]
    ensures forall i :: 0 <= i < |s| - |TrimStart(s)| ==> IsSpace(s[i])
    decreases |s|
  {
    if |s| > 0 && IsSpace(s[0]) {
      TrimStartDrops(s[1..]);
    }
  }

  /** Drops trailing whitespace: what remains does not end with whitespace;
      `TrimEndDrops` says what was dropped. */
  function TrimEnd(s: string): (t: string)
    ensures |t| <= |s|
    ensures t == [] || !IsSpace(t[|t| - 1])
  {
    if |s| > 0 && IsSpace(s[|s| - 1]) then TrimEnd(s[..|s| - 1]) else s
  }

  /** `TrimEnd` keeps a prefix of its input and drops only whitespace. */
  lemma {:induction false} TrimEndDrops(s: string)
    ensures TrimEnd(s) == s[..|TrimEnd(s)|]
    ensures forall i :: |TrimEnd(s)| <= i < |s| ==> IsSpace(s[i])
    decreases |s|
  {
    if |s| > 0 && IsSpace(s[|s| - 1]) {
      TrimEndDrops(s[..|s| - 1]);
    }
  }

  /** `String.prototype.trim`. */
  function Trim(s: string): string { TrimEnd(TrimStart(s)) }

  /** `trim` removes exactly the leading and the trailing whitespace: the
      result is the slice of the input between its first `k` characters and its
      trailing ones, all of which are whitespace, and it neither starts nor ends
      with whitespace. */
  lemma TrimDrops(s: string)
    ensures var t, k := Trim(s), |s| - |TrimStart(s)|;
      && 0 <= k <= k + |t| <= |s| && t == s[k..k + |t|]
      && (forall i :: 0 <= i < k ==> IsSpace(s[i]))
      && (forall i :: k + |t| <= i < |s| ==> IsSpace(s[i]))
      && (t == [] || (!IsSpace(t[0]) && !IsSpace(t[|t| - 1])))
  {
    var u := TrimStart(s);
    TrimStartDrops(s);
    TrimEndDrops(u);
  }

  /** String.prototype.slice with non-negative bounds: both are clamped to the length. */
  function Slice(s: string, i: nat, j: nat): (t: string)
    ensures i <= j ==> |t| <= j - i
    ensures i <= j <= |s| ==> t == s[i..j]
    ensures |s| <= i ==> t == []
  {
    var a := if i <= |s| then i else |s|;
    var b := if j <= |s| then j else |s|;
    if a <= b then s[a..b] else []
  }

  /** The clamped cases of `slice`, kept out of `Slice`'s own contract so that
      its many users stay small: an end past the text stops at the end, and an
      end not after the start gives the empty text. */
  lemma SliceClamps(s: string, i: nat, j: nat)
    ensures i <= |s| <= j ==> Slice(s, i, j) == s[i..]
    ensures j <= i ==> Slice(s, i, j) == []
  {
  }

  // ---------------------------------------------------------------------------
  // parseInt
  // ---------------------------------------------------------------------------

  predicate IsDigit(c: char) { '0' <= c <= '9' }

  predicate AllDigits(s: string) { forall i :: 0 <= i < |s| ==> IsDigit(s[i]) }

  /** Value of a hexadecimal digit, or -1 for a character that is not one. */
  function HexDigit(c: char): int {
    if '0' <= c <= '9' then c as int - '0' as int
    else if 'a' <= c <= 'f' then c as int - 'a' as int + 10
    else if 'A' <= c <= 'F' then c as int - 'A' as int + 10
    else -1
  }

  predicate IsHexDigit(c: char) { HexDigit(c) >= 0 }

  function Pow16(n: nat): nat { if n == 0 then 1 else 16 * Pow16(n - 1) }

  /** Value of a string of hexadecimal digits, most significant first. */
  function HexValue(ds: string): (v: int)
    requires forall i :: 0 <= i < |ds| ==> IsHexDigit(ds[i])
    ensures 0 <= v < Pow16(|ds|)
  {
    if ds == [] then 0
    else
      assert IsHexDigit(ds[|ds| - 1]);
      16 * HexValue(ds[..|ds| - 1]) + HexDigit(ds[|ds| - 1])
  }

  /** Number of leading hexadecimal digits. */
  function HexRun(s: string): (n: nat)
    ensures n <= |s| && forall i :: 0 <= i < n ==> IsHexDigit(s[i])
    ensures n == |s| || !IsHexDigit(s[n])
  {
    if |s| > 0 && IsHexDigit(s[0]) then 1 + HexRun(s[1..]) else 0
  }

  /** The text after one optional sign. */
  function Unsigned(t: string): (u: string)
    ensures |t| > 0 && (t[0] == '-' || t[0] == '+') ==> u == t[1..]
    ensures t == [] || (t[0] != '-' && t[0] != '+') ==> u == t
  {
    if |t| > 0 && (t[0] == '-' || t[0] == '+') then t[1..] else t
  }

  /** The text after an optional `0x` or `0X` prefix. */
  function DropHexPrefix(u: string): (w: string)
    ensures |w| <= |u|
    ensures !(|u| >= 2 && u[0] == '0' && (u[1] == 'x' || u[1] == 'X')) ==> w == u
  {
    if |u| >= 2 && u[0] == '0' && (u[1] == 'x' || u[1] == 'X') then u[2..] else u
  }

  /** The value of the leading hexadecimal digits of `w` (0 when there are none). */
  function LeadingHex(w: string): (v: int)
    ensures 0 <= v < Pow16(HexRun(w))
  {
    HexValue(w[..HexRun(w)])
  }

  /** `parseInt(s, 16)`: leading whitespace, an optional sign, an optional `0x`
      prefix, then the longest run of hexadecimal digits; NaN when that run is empty. */
  function ParseIntHex(s: string): (n: Num)
    ensures n.NaN? || IsIntegral(n)
    ensures |s| <= 2 && n.Finite? ==> -15.0 <= n.v <= 255.0
    // NaN for the empty string and for text starting with anything other than
    // whitespace, a sign or a hexadecimal digit
    ensures s == [] || (!IsHexDigit(s[0]) && !IsSpace(s[0]) && s[0] != '+' && s[0] != '-') ==> n.NaN?
    // otherwise, unless the text starts with a `0x` prefix, the value of the
    // leading digits, ignoring whatever follows them
    ensures HexRun(s) > 0 && !(|s| >= 2 && s[0] == '0' && (s[1] == 'x' || s[1] == 'X')) ==>
              n == FromInt(LeadingHex(s))
  {
    PlainHexText(s);
    NoHexText(s);
    ShortHexText(s);
    var t := TrimStart(s);
    var negative := |t| > 0 && t[0] == '-';
    var w := DropHexPrefix(Unsigned(t));
    if HexRun(w) == 0 then NaN
    else
      var m := LeadingHex(w);
      FromInt(if negative then -m else m)
  }

  /** `parseInt` skips leading whitespace: the text reads as it does with that
      whitespace removed, `NaN` included. */
  lemma ParseIntHexTrims(s: string)
    ensures ParseIntHex(s) == ParseIntHex(TrimStart(s))
  {
    TrimStartNoSpace(TrimStart(s));
  }

  /** One leading sign in front of hexadecimal digits (and no `0x` prefix):
      the value of the digits, negated for `-`. */
  lemma ParseIntHexSigned(s: string)
    requires |s| >= 2 && (s[0] == '-' || s[0] == '+') && IsHexDigit(s[1])
    requires !(|s| >= 3 && s[1] == '0' && (s[2] == 'x' || s[2] == 'X'))
    ensures ParseIntHex(s) == FromInt(if s[0] == '-' then -LeadingHex(s[1..]) else LeadingHex(s[1..]))
  {
    TrimStartNoSpace(s);
    assert HexRun(s[1..]) > 0;
  }

  /** A sign not followed by a hexadecimal digit reads as `NaN`. */
  lemma ParseIntHexSignNoDigit(s: string)
    requires |s| >= 1 && (s[0] == '-' || s[0] == '+') && (|s| == 1 || !IsHexDigit(s[1]))
    ensures ParseIntHex(s).NaN?
  {
    TrimStartNoSpace(s);
  }

  /** Number of leading ASCII digits. */
  function DigitRun(s: string): (n: nat)
    ensures n <= |s| && AllDigits(s[..n])
    ensures n == |s| || !IsDigit(s[n])
  {
    if |s| > 0 && IsDigit(s[0]) then 1 + DigitRun(s[1..]) else 0
  }

  /** Decimal value of a string of digits: `parseInt` of such a string. */
  function DecimalValue(ds: string): nat
    requires AllDigits(ds)
  {
    if ds == [] then 0 else 10 * DecimalValue(ds[..|ds| - 1]) + (ds[|ds| - 1] as int - '0' as int)
  }

  // ---------------------------------------------------------------------------
  // parseColorToRgb
  // ---------------------------------------------------------------------------

  /** The hexadecimal branch of the parser (also `hex2rgb` of `interpolaColore`):
      `parseInt` of the slices [1,3), [3,5) and [5,7). */
  function HexToRgb(s: string): (c: Rgb)
    ensures c.r.NaN? || (IsIntegral(c.r) && -15.0 <= c.r.v <= 255.0)
    ensures c.g.NaN? || (IsIntegral(c.g) && -15.0 <= c.g.v <= 255.0)
    ensures c.b.NaN? || (IsIntegral(c.b) && -15.0 <= c.b.v <= 255.0)
  {
    Rgb(ParseIntHex(Slice(s, 1, 3)), ParseIntHex(Slice(s, 3, 5)), ParseIntHex(Slice(s, 5, 7)))
  }

  /** `\s*(\d+)` followed by `sep`: the group's value and the text after `sep`. */
  function MatchGroup(s: string, sep: char): Option<(nat, string)> {
    var p := TrimStart(s);
    var n := DigitRun(p);
    if n == 0 || n == |p| || p[n] != sep then None
    else Some((DecimalValue(p[..n]), p[n + 1..]))
  }

  /** `\s*(\d+)\s*\)`: the value of the last group. */
  function MatchLastGroup(s: string): Option<nat> {
    var p := TrimStart(s);
    var n := DigitRun(p);
    if n == 0 then None
    else
      var z := TrimStart(p[n..]);
      if |z| == 0 || z[0] != ')' then None else Some(DecimalValue(p[..n]))
  }

  /** Matches `rgb\s*\(\s*(\d+),\s*(\d+),\s*(\d+)\s*\)` (case-insensitively) at the
      start of `s` and gives the values of the three groups. Each greedy piece is
      followed by a character its class excludes, so backtracking cannot find
      another match at the same start. */
  function MatchRgbHere(s: string): Option<(nat, nat, nat)> {
    if |s| < 3 || !(s[0] in "rR" && s[1] in "gG" && s[2] in "bB") then None
    else MatchArguments(TrimStart(s[3..]))
  }

  /** `\(\s*(\d+),\s*(\d+),\s*(\d+)\s*\)` at the start of `a`. */
  function MatchArguments(a: string): Option<(nat, nat, nat)> {
    if |a| == 0 || a[0] != '(' then None
    else
      match MatchGroup(a[1..], ',')
      case None => None
      case Some((r, rest1)) =>
        match MatchGroup(rest1, ',')
        case None => None
        case Some((g, rest2)) =>
          match MatchLastGroup(rest2)
          case None => None
          case Some(b) => Some((r, g, b))
  }

  /** `String.prototype.match` with the unanchored pattern: the leftmost match. */
  function FindRgb(s: string): Option<(nat, nat, nat)> {
    if MatchRgbHere(s).Some? then MatchRgbHere(s)
    else if |s| == 0 then None
    else FindRgb(s[1..])
  }

  /** The pattern occurs somewhere in `s`. */
  ghost predicate ContainsRgb(s: string) {
    exists i :: 0 <= i <= |s| && MatchRgbHere(s[i..]).Some?
  }

  /** `parseColorToRgb`: black for the empty string; after trimming, the
      hexadecimal branch for a leading `#`, else the first `rgb(...)` occurrence,
      else black. */
  function ParseColor(input: string): (c: Rgb)
    ensures Trim(input) == [] ==> c == Black
    ensures (Trim(input) == [] || Trim(input)[0] != '#') && !ContainsRgb(Trim(input)) ==> c == Black
    ensures (Trim(input) == [] || Trim(input)[0] != '#') ==>
              IsIntegral(c.r) && IsIntegral(c.g) && IsIntegral(c.b) && c.r.v >= 0.0 && c.g.v >= 0.0 && c.b.v >= 0.0
    ensures c.r.NaN? || IsIntegral(c.r)
    ensures c.g.NaN? || IsIntegral(c.g)
    ensures c.b.NaN? || IsIntegral(c.b)
  {
    if input == "" then Black
    else
      var t := Trim(input);
      if |t| > 0 && t[0] == '#' then HexToRgb(t)
      else
        FindRgbSound(t);
        match FindRgb(t)
        case Some(m) => Rgb(FromInt(m.0), FromInt(m.1), FromInt(m.2))
        case None => Black
  }

  /** `FindRgb` fails exactly when the pattern occurs nowhere. */
  lemma {:induction false} FindRgbSound(s: string)
    ensures FindRgb(s).None? <==> !ContainsRgb(s)
    decreases |s|
  {
    if MatchRgbHere(s).Some? {
      assert s[0..] == s;
    } else if |s| == 0 {
      assert forall i :: 0 <= i <= |s| ==> s[i..] == s;
    } else {
      FindRgbSound(s[1..]);
      if ContainsRgb(s) {
        var i :| 0 <= i <= |s| && MatchRgbHere(s[i..]).Some?;
        assert i != 0;
        assert s[1..][i - 1..] == s[i..];
      }
      if ContainsRgb(s[1..]) {
        var i :| 0 <= i <= |s[1..]| && MatchRgbHere(s[1..][i..]).Some?;
        assert s[1..][i..] == s[i + 1..];
      }
    }
  }

  /** `FindRgb` returns the match at the leftmost position where the pattern occurs. */
  lemma {:induction false} FindRgbLeftmost(s: string, i: nat)
    requires i <= |s| && MatchRgbHere(s[i..]).Some?
    requires forall j :: 0 <= j < i ==> MatchRgbHere(s[j..]).None?
    ensures FindRgb(s) == MatchRgbHere(s[i..])
    decreases i
  {
    if i == 0 {
      assert s[0..] == s;
    } else {
      assert s[0..] == s;
      forall j | 0 <= j < i - 1 ensures MatchRgbHere(s[1..][j..]).None? {
        assert s[1..][j..] == s[j + 1..];
      }
      assert s[1..][i - 1..] == s[i..];
      FindRgbLeftmost(s[1..], i - 1);
    }
  }

  // ---------------------------------------------------------------------------
  // rgbToCss
  // ---------------------------------------------------------------------------

  /** `Math.round`: the nearest integer, halves rounded up. */
  function Round(x: real): (n: int)
    ensures x - 0.5 < n as real <= x + 0.5
  {
    (x + 0.5).Floor
  }

  function DigitChar(d: int): char
    requires 0 <= d < 10
  {
    ('0' as int + d) as char
  }

  /** Decimal representation of a natural number, without leading zeros. */
  function ShowNat(n: nat): (s: string)
    ensures |s| >= 1 && AllDigits(s)
    ensures n >= 1 ==> s[0] != '0'
    ensures |s| > 1 ==> s[0] != '0'
  {
    if n < 10 then [DigitChar(n)] else ShowNat(n / 10) + [DigitChar(n % 10)]
  }

  function ShowInt(i: int): string {
    if i < 0 then "-" + ShowNat(-i) else ShowNat(i)
  }

  /** The text of `Math.round(x)` inside a template literal. */
  function ShowRounded(n: Num): string {
    match n
    case NaN => "NaN"
    case Finite(v) => ShowInt(Round(v))
  }

  /** `rgbToCss`: `rgb(R, G, B)` with each channel rounded. Its inverse on
      colours that round to non-negative integers is `ParseColor`
      (`CssRoundTrip`). */
  function RgbToCss(c: Rgb): (s: string)
    ensures |s| > 4 && s[..4] == "rgb(" && s[|s| - 1] == ')'
  {
    "rgb(" + (ShowRounded(c.r) + (", " + (ShowRounded(c.g) + (", " + (ShowRounded(c.b) + ")")))))
  }

  function RoundNum(n: Num): Num {
    match n
    case NaN => NaN
    case Finite(v) => FromInt(Round(v))
  }

  function RoundRgb(c: Rgb): Rgb { Rgb(RoundNum(c.r), RoundNum(c.g), RoundNum(c.b)) }

  /** Every channel is finite and rounds to a non-negative integer. */
  predicate RoundsNonNegative(c: Rgb) {
    IsFiniteColor(c) && Round(c.r.v) >= 0 && Round(c.g.v) >= 0 && Round(c.b.v) >= 0
  }

  // ---------------------------------------------------------------------------
  // Round trip rgbToCss -> parseColorToRgb
  // ---------------------------------------------------------------------------

  lemma {:induction false} DecimalOfShow(n: nat)
    ensures DecimalValue(ShowNat(n)) == n
  {
    if n >= 10 {
      var s := ShowNat(n);
      assert s[..|s| - 1] == ShowNat(n / 10);
      DecimalOfShow(n / 10);
    }
  }

  /** The digit run of `ds + rest` is `ds` when `rest` does not continue it. */
  lemma {:induction false} DigitRunOf(ds: string, rest: string)
    requires AllDigits(ds)
    requires rest == [] || !IsDigit(rest[0])
    ensures DigitRun(ds + rest) == |ds|
    ensures (ds + rest)[..|ds|] == ds && (ds + rest)[|ds|..] == rest
    decreases |ds|
  {
    if ds != [] {
      assert (ds + rest)[1..] == ds[1..] + rest;
      DigitRunOf(ds[1..], rest);
    }
  }

  /** A run of digits followed by `sep` is one group of the pattern. */
  lemma MatchGroupOfDigits(ds: string, sep: char, rest: string)
    requires |ds| >= 1 && AllDigits(ds) && !IsDigit(sep)
    ensures MatchGroup(ds + ([sep] + rest), sep) == Some((DecimalValue(ds), rest))
  {
    var s := ds + ([sep] + rest);
    DigitRunOf(ds, [sep] + rest);
    TrimStartNoSpace(s);
    assert s[|ds| + 1..] == rest by { assert s[|ds| + 1..] == s[|ds|..][1..]; }
  }

  /** The `\s*` in front of a group absorbs a space. */
  lemma MatchGroupSpace(x: string, sep: char)
    ensures MatchGroup(" " + x, sep) == MatchGroup(x, sep)
  {
    TrimStartSpace(x);
  }

  lemma MatchLastGroupOfDigits(ds: string)
    requires |ds| >= 1 && AllDigits(ds)
    ensures MatchLastGroup(" " + (ds + ")")) == Some(DecimalValue(ds))
  {
    var s := ds + ")";
    DigitRunOf(ds, ")");
    TrimStartNoSpace(s);
    TrimStartNoSpace(")");
    TrimStartSpace(s);
  }

  /** A hexadecimal digit is neither whitespace nor a sign. */
  lemma HexDigitNotSpace(c: char)
    requires IsHexDigit(c)
    ensures !IsSpace(c) && c != '-' && c != '+'
  {
  }

  /** Text that starts with a hexadecimal digit and no `0x` prefix is read by
      `parseInt` from its first character, as a positive number. */
  lemma PlainHexText(s: string)
    ensures HexRun(s) > 0 && !(|s| >= 2 && s[0] == '0' && (s[1] == 'x' || s[1] == 'X')) ==>
              TrimStart(s) == s && s[0] != '-' && DropHexPrefix(Unsigned(s)) == s
  {
    if HexRun(s) > 0 {
      HexDigitNotSpace(s[0]);
      TrimStartNoSpace(s);
    }
  }

  /** Text that starts with neither whitespace, a sign nor a hexadecimal digit
      leaves `parseInt` no digit to read. */
  lemma NoHexText(s: string)
    ensures s == [] || (!IsHexDigit(s[0]) && !IsSpace(s[0]) && s[0] != '+' && s[0] != '-') ==>
              HexRun(DropHexPrefix(Unsigned(TrimStart(s)))) == 0
  {
    TrimStartNoSpace(s);
  }

  /** From at most two characters `parseInt` reads at most two digits, and at
      most one after a minus sign. */
  lemma ShortHexText(s: string)
    ensures var t := TrimStart(s);
      var k := HexRun(DropHexPrefix(Unsigned(t)));
      |s| <= 2 ==> Pow16(k) <= 256 && (|t| > 0 && t[0] == '-' ==> Pow16(k) <= 16)
  {
    var t := TrimStart(s);
    var k := HexRun(DropHexPrefix(Unsigned(t)));
    if |s| <= 2 {
      assert k <= 2;
      if |t| > 0 && t[0] == '-' {
        assert k <= 1;
      }
    }
  }

  /** Text that does not start with whitespace is left as it is by `TrimStart`. */
  lemma TrimStartNoSpace(s: string)
    ensures s == [] || !IsSpace(s[0]) ==> TrimStart(s) == s
  {
  }

  /** A leading space is trimmed like any other whitespace. */
  lemma TrimStartSpace(s: string)
    ensures TrimStart(" " + s) == TrimStart(s)
  {
    assert (" " + s)[1..] == s;
  }

  /** The argument list `(A, B, C)` written by `rgbToCss` matches. */
  lemma MatchArgumentsOfDigits(A: string, B: string, C: string)
    requires |A| >= 1 && AllDigits(A) && |B| >= 1 && AllDigits(B) && |C| >= 1 && AllDigits(C)
    ensures MatchArguments("(" + (A + ([','] + (" " + (B + ([','] + (" " + (C + ")"))))))))
            == Some((DecimalValue(A), DecimalValue(B), DecimalValue(C)))
  {
    var tailC := " " + (C + ")");
    var tailB := " " + (B + ([','] + tailC));
    var tailA := A + ([','] + tailB);
    assert ("(" + tailA)[1..] == tailA;
    MatchGroupOfDigits(A, ',', tailB);
    MatchGroupSpace(B + ([','] + tailC), ',');
    MatchGroupOfDigits(B, ',', tailC);
    MatchLastGroupOfDigits(C);
  }

  /** Regroups the `", "` separator of `rgbToCss` into the comma the pattern
      expects and the space its `\s*` skips. */
  lemma CommaSpace(x: string)
    ensures ", " + x == [','] + (" " + x)
  {
  }

  /** Splits the `rgb(` prefix into the literal `rgb` and the argument list. */
  lemma RgbOpen(x: string)
    ensures "rgb(" + x == "rgb" + ("(" + x)
    ensures ("rgb" + x)[3..] == x
  {
  }

  /** The comma must follow its digits at once: `rgb(1 ,2,3)` does not match. */
  lemma SpaceBeforeComma(ds: string, rest: string)
    requires |ds| >= 1 && AllDigits(ds)
    ensures MatchArguments("(" + (ds + (" ," + rest))) == None
  {
    var s := ds + (" ," + rest);
    assert ("(" + s)[1..] == s;
    DigitRunOf(ds, " ," + rest);
    TrimStartNoSpace(s);
  }

  /** `rgb` must be followed by whitespace and `(`: `rgba(...)` does not match
      at its first character. */
  lemma RgbaIsNotRgb(x: string)
    ensures MatchRgbHere("rgba" + x) == None
  {
    assert ("rgba" + x)[3..] == "a" + x;
    TrimStartNoSpace("a" + x);
  }

  /** The letters `rgb` match in any case. */
  lemma RgbAnyCase(a: char, b: char, c: char, x: string)
    requires a in "rR" && b in "gG" && c in "bB"
    ensures MatchRgbHere([a, b, c] + x) == MatchRgbHere("rgb" + x)
  {
    assert ([a, b, c] + x)[3..] == ("rgb" + x)[3..] == x;
  }

  /** Three digit runs laid out as `rgb(A, B, C)` match the pattern at the first
      character, with their values as the groups. */
  lemma MatchSerialised(A: string, B: string, C: string)
    requires |A| >= 1 && AllDigits(A) && |B| >= 1 && AllDigits(B) && |C| >= 1 && AllDigits(C)
    ensures MatchRgbHere("rgb(" + (A + (", " + (B + (", " + (C + ")"))))))
            == Some((DecimalValue(A), DecimalValue(B), DecimalValue(C)))
  {
    CommaSpace(C + ")");
    CommaSpace(B + (", " + (C + ")")));
    var args := "(" + (A + ([','] + (" " + (B + ([','] + (" " + (C + ")")))))));
    RgbOpen(A + (", " + (B + (", " + (C + ")")))));
    RgbOpen(args);
    TrimStartNoSpace(args);
    MatchArgumentsOfDigits(A, B, C);
    var head := "rgb";
    assert head[0] == 'r' && head[1] == 'g' && head[2] == 'b';
  }

  /** Serialising a colour and parsing the text back gives the rounded colour,
      provided no channel rounds to a negative number. The transition reads back
      the colour it wrote last through exactly this pair. */
  lemma CssRoundTrip(c: Rgb)
    requires RoundsNonNegative(c)
    ensures ParseColor(RgbToCss(c)) == RoundRgb(c)
  {
    var s := RgbToCss(c);
    var a, b, d := Round(c.r.v), Round(c.g.v), Round(c.b.v);
    var A, B, C := ShowNat(a), ShowNat(b), ShowNat(d);
    assert s == "rgb(" + (A + (", " + (B + (", " + (C + ")")))));
    TrimStartNoSpace(s);
    assert TrimEnd(s) == s;
    MatchSerialised(A, B, C);
    DecimalOfShow(a);
    DecimalOfShow(b);
    DecimalOfShow(d);
  }

  /** For integer channels in [0, 255], `parseColorToRgb(rgbToCss(c)) == c`. */
  lemma CssRoundTripBytes(c: Rgb)
    requires IsByteColor(c)
    ensures ParseColor(RgbToCss(c)) == c
  {
    CssRoundTrip(c);
    RoundIntegral(c.r.v);
    RoundIntegral(c.g.v);
    RoundIntegral(c.b.v);
  }

  lemma RoundIntegral(x: real)
    requires x == x.Floor as real
    ensures Round(x) == x.Floor
  {
  }

  // ---------------------------------------------------------------------------
  // Hexadecimal colours
  // ---------------------------------------------------------------------------

  /** A well-formed `#RRGGBB` colour. */
  predicate IsHexColor(s: string) {
    |s| == 7 && s[0] == '#' && forall i :: 1 <= i < 7 ==> IsHexDigit(s[i])
  }

  function HexByte(hi: char, lo: char): int { 16 * HexDigit(hi) + HexDigit(lo) }

  lemma HexPair(x: char, y: char)
    requires IsHexDigit(x) && IsHexDigit(y)
    ensures ParseIntHex([x, y]) == FromInt(HexByte(x, y))
  {
    var s := [x, y];
    TrimStartNoSpace(s);
    assert s[1..] == [y] && [y][1..] == [];
    assert HexRun(s) == 2;
    assert s[..2] == s && s[..1] == [x] && [x][..0] == [];
    assert HexValue([x]) == HexDigit(x);
    assert HexValue(s) == HexByte(x, y);
  }

  /** A pair made of a hexadecimal digit and a character that is not one reads
      as that single digit, except that `0x` and `0X` read as a bare prefix: NaN. */
  lemma HexSingleDigit(x: char, y: char)
    requires IsHexDigit(x) && !IsHexDigit(y)
    ensures x == '0' && (y == 'x' || y == 'X') ==> ParseIntHex([x, y]).NaN?
    ensures !(x == '0' && (y == 'x' || y == 'X')) ==> ParseIntHex([x, y]) == FromInt(HexDigit(x))
  {
    var s := [x, y];
    TrimStartNoSpace(s);
    HexDigitNotSpace(x);
    assert s[1..] == [y];
    assert HexRun(s) == 1;
    assert s[..1] == [x] && [x][..0] == [];
    assert HexValue([x]) == HexDigit(x);
    if x == '0' && (y == 'x' || y == 'X') {
      assert DropHexPrefix(Unsigned(TrimStart(s))) == [];
    }
  }

  /** A `#` colour whose first pair starts with neither whitespace, a sign nor a
      hexadecimal digit has a NaN red channel: such a colour is not read as black. */
  lemma HexRedNaN(s: string)
    requires |s| >= 3 && s[0] == '#' && Trim(s) == s
    requires !IsHexDigit(s[1]) && !IsSpace(s[1]) && s[1] != '+' && s[1] != '-'
    ensures ParseColor(s).r.NaN?
  {
    assert Slice(s, 1, 3) == s[1..3];
  }

  /** Each pair of `#1G2H3I` starts with one digit, so it parses to (1, 2, 3). */
  lemma HexLeadingDigits(s: string)
    requires s == "#1G2H3I"
    ensures ParseColor(s) == Rgb(FromInt(1), FromInt(2), FromInt(3))
  {
    assert TrimStart(s) == s by { TrimStartNoSpace(s); }
    assert !IsSpace(s[6]);
    assert TrimEnd(s) == s;
    assert Slice(s, 1, 3) == [s[1], s[2]];
    assert Slice(s, 3, 5) == [s[3], s[4]];
    assert Slice(s, 5, 7) == [s[5], s[6]];
    HexSingleDigit(s[1], s[2]);
    HexSingleDigit(s[3], s[4]);
    HexSingleDigit(s[5], s[6]);
  }

  /** On `#RRGGBB` the parser returns the three hexadecimal bytes, each in [0, 255]. */
  lemma ParseHexColor(s: string)
    requires IsHexColor(s)
    ensures ParseColor(s) == Rgb(FromInt(HexByte(s[1], s[2])), FromInt(HexByte(s[3], s[4])), FromInt(HexByte(s[5], s[6])))
    ensures IsByteColor(ParseColor(s))
    ensures ParseColor(s) == HexToRgb(s)
  {
    assert !IsSpace(s[0]) && !IsSpace(s[6]);
    assert TrimStart(s) == s;
    assert TrimEnd(s) == s;
    assert Slice(s, 1, 3) == [s[1], s[2]];
    assert Slice(s, 3, 5) == [s[3], s[4]];
    assert Slice(s, 5, 7) == [s[5], s[6]];
    HexPair(s[1], s[2]);
    HexPair(s[3], s[4]);
    HexPair(s[5], s[6]);
  }

  /** The example colour of the sunrise phase: `#FF512F` is (255, 81, 47). */
  lemma ParseSunriseTop(s: string)
    requires s == "#FF512F"
    ensures ParseColor(s) == Rgb(FromInt(255), FromInt(81), FromInt(47))
  {
    assert IsHexDigit(s[1]) && IsHexDigit(s[2]) && IsHexDigit(s[3]);
    assert IsHexDigit(s[4]) && IsHexDigit(s[5]) && IsHexDigit(s[6]);
    ParseHexColor(s);
  }

  // ---------------------------------------------------------------------------
  // lerp, easeInOutCubic and interpolaColore
  // ---------------------------------------------------------------------------

  /** `lerp`: the first value at 0, the second at 1, and between them in between. */
  function Lerp(a: real, b: real, t: real): (r: real)
    ensures t == 0.0 ==> r == a
    ensures t == 1.0 ==> r == b
    ensures 0.0 <= t <= 1.0 ==> Min(a, b) <= r <= Max(a, b)
  {
    LerpBetween(a, b, t);
    a + (b - a) * t
  }

  /** The case split behind `Lerp`'s third postcondition, which a function body
      cannot hold. */
  lemma LerpBetween(a: real, b: real, t: real)
    ensures 0.0 <= t <= 1.0 ==> Min(a, b) <= a + (b - a) * t <= Max(a, b)
  {
    if 0.0 <= t <= 1.0 {
      var d := if a <= b then b - a else a - b;
      assert 0.0 <= d * t;
      assert 0.0 <= d * (1.0 - t);
      assert d * t <= d;
    }
  }

  /** JavaScript arithmetic on a channel: NaN in, NaN out. */
  function LerpNum(a: Num, b: Num, t: real): Num {
    if a.Finite? && b.Finite? then Finite(Lerp(a.v, b.v, t)) else NaN
  }

  function LerpRgb(a: Rgb, b: Rgb, t: real): Rgb {
    Rgb(LerpNum(a.r, b.r, t), LerpNum(a.g, b.g, t), LerpNum(a.b, b.b, t))
  }

  function Cube(x: real): real { x * x * x }

  lemma CubeUnit(x: real)
    requires 0.0 <= x <= 1.0
    ensures 0.0 <= Cube(x) <= x
  {
    assert 0.0 <= x * x <= x;
    assert x * x * x <= x * x;
  }

  /** `easeInOutCubic`: maps [0, 1] onto [0, 1], fixing both ends. */
  function Ease(t: real): (e: real)
    ensures 0.0 <= t <= 1.0 ==> 0.0 <= e <= 1.0
    ensures t == 0.0 ==> e == 0.0
    ensures t == 1.0 ==> e == 1.0
  {
    EaseBounds(t);
    if t < 0.5 then 4.0 * t * t * t else 1.0 - Cube(-2.0 * t + 2.0) / 2.0
  }

  lemma EaseBounds(t: real)
    ensures 0.0 <= t < 0.5 ==> 0.0 <= 4.0 * t * t * t <= 1.0
    ensures 0.5 <= t <= 1.0 ==> 0.0 <= 1.0 - Cube(-2.0 * t + 2.0) / 2.0 <= 1.0
  {
    if 0.0 <= t < 0.5 {
      CubeUnit(2.0 * t);
      assert Cube(2.0 * t) == 8.0 * (t * t * t);
    } else if 0.5 <= t <= 1.0 {
      CubeUnit(-2.0 * t + 2.0);
    }
  }

  /** `interpolaColore`: both colours read by `hex2rgb`, each channel
      interpolated and rounded, written as `rgb(R, G, B)`; whatever the inputs,
      the result is `rgb(...)` text, never a `#` colour. */
  function Interpolate(c1: string, c2: string, f: real): (r: string)
    ensures |r| > 4 && r[..4] == "rgb(" && r[|r| - 1] == ')'
  {
    RgbToCss(LerpRgb(HexToRgb(c1), HexToRgb(c2), f))
  }

  /** Rounding an interpolated channel keeps it between the two integer endpoints. */
  lemma {:induction false} RoundedLerpBetween(a: int, b: int, t: real)
    requires 0.0 <= t <= 1.0
    ensures (if a <= b then a else b) <= Round(Lerp(a as real, b as real, t)) <= (if a <= b then b else a)
  {
    var x := Lerp(a as real, b as real, t);
    assert Min(a as real, b as real) <= x <= Max(a as real, b as real);
  }

  /** `x` lies between `a` and `b`, all three finite. */
  predicate Between(x: Num, a: Num, b: Num) {
    x.Finite? && a.Finite? && b.Finite? && Min(a.v, b.v) <= x.v <= Max(a.v, b.v)
  }

  function ByteOf(n: Num): int requires IsIntegral(n) { n.v.Floor }

  /** Interpolating two byte colours stays a byte colour once rounded. */
  lemma RoundedLerpBytes(a: Rgb, b: Rgb, t: real)
    requires IsByteColor(a) && IsByteColor(b) && 0.0 <= t <= 1.0
    ensures IsByteColor(RoundRgb(LerpRgb(a, b, t)))
    ensures RoundsNonNegative(LerpRgb(a, b, t))
    ensures var c := RoundRgb(LerpRgb(a, b, t));
      Between(c.r, a.r, b.r) && Between(c.g, a.g, b.g) && Between(c.b, a.b, b.b)
  {
    RoundedLerpBetween(ByteOf(a.r), ByteOf(b.r), t);
    RoundedLerpBetween(ByteOf(a.g), ByteOf(b.g), t);
    RoundedLerpBetween(ByteOf(a.b), ByteOf(b.b), t);
  }

  /** `interpolaColore` gives the first colour at factor 0 and the second at
      factor 1 (as `rgb(...)` text), and in between a byte colour each of whose
      channels lies between the two colours' channels. */
  lemma InterpolateEndpoints(c1: string, c2: string, f: real)
    requires IsHexColor(c1) && IsHexColor(c2)
    ensures Interpolate(c1, c2, 0.0) == RgbToCss(ParseColor(c1))
    ensures Interpolate(c1, c2, 1.0) == RgbToCss(ParseColor(c2))
    ensures 0.0 <= f <= 1.0 ==> IsByteColor(ParseColor(Interpolate(c1, c2, f)))
    ensures 0.0 <= f <= 1.0 ==>
              var c := ParseColor(Interpolate(c1, c2, f));
              var a, b := ParseColor(c1), ParseColor(c2);
              Between(c.r, a.r, b.r) && Between(c.g, a.g, b.g) && Between(c.b, a.b, b.b)
  {
    ParseHexColor(c1);
    ParseHexColor(c2);
    var a, b := HexToRgb(c1), HexToRgb(c2);
    assert LerpRgb(a, b, 0.0) == a;
    assert LerpRgb(a, b, 1.0) == b;
    if 0.0 <= f <= 1.0 {
      RoundedLerpBytes(a, b, f);
      CssRoundTrip(LerpRgb(a, b, f));
    }
  }
}
