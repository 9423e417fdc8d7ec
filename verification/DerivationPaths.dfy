/** Derivation paths of hierarchical deterministic wallets: parsing what users write, and printing. */
module DerivationPaths {
  import opened Types

  const MAX_UINT32: nat := 0xFFFF_FFFF

  type Uint32 = n: nat | n <= MAX_UINT32

  /** The first index of a hardened key, as in section "Extended keys" of BIP-32. */
  const HARDENED: Uint32 := 0x8000_0000

  type Path = seq<Uint32>

  /** m/44'/60'/0'/0, to which relative paths are appended. */
  const DEFAULT_ROOT: Path := [HARDENED + 44, HARDENED + 60, HARDENED, 0]

  datatype PathError = EmptyPath | AmbiguousPath | InvalidComponent | OutOfRange(hardened: bool)

  datatype Parsed<T> = Ok(value: T) | Err(error: PathError)

  predicate IsSpace(c: char) {
    c in "\t\n\r " || c as int in {0x0B, 0x0C, 0x85, 0xA0, 0x1680, 0x2028, 0x2029, 0x202F, 0x205F, 0x3000}
    || 0x2000 <= c as int <= 0x200A
  }

  function TrimLeft(s: string): string {
    if s != "" && IsSpace(s[0]) then TrimLeft(s[1..]) else s
  }

  function TrimRight(s: string): string {
    if s != "" && IsSpace(s[|s| - 1]) then TrimRight(s[..|s| - 1]) else s
  }

  function TrimSpace(s: string): string {
    TrimRight(TrimLeft(s))
  }

  /** The parts between slashes; at least one. */
  function Split(s: string): (parts: seq<string>)
    ensures |parts| > 0
  {
    if s == "" then [""]
    else
      var rest := Split(s[1..]);
      if s[0] == '/' then [""] + rest else [[s[0]] + rest[0]] + rest[1..]
  }

  /** The value of a digit in any base up to 36. */
  function Digit(c: char): nat {
    if '0' <= c <= '9' then c as int - '0' as int
    else if 'a' <= c <= 'z' then c as int - 'a' as int + 10
    else if 'A' <= c <= 'Z' then c as int - 'A' as int + 10
    else 63
  }

  /** Digits of base `b`, all of `s`. An underscore may stand after a digit or a base prefix, where
      `sep` says so; `any` tells whether there was a digit. */
  function ScanDigits(s: string, b: nat, sep: bool, acc: nat, any: bool): Option<nat> {
    if s == "" then if sep && any then Some(acc) else None
    else if s[0] == '_' then if sep then ScanDigits(s[1..], b, false, acc, any) else None
    else if Digit(s[0]) < b then ScanDigits(s[1..], b, true, acc * b + Digit(s[0]), true)
    else None
  }

  /** An unsigned number whose base its prefix tells: 0b, 0o or 0, 0x, or none. */
  function ScanNumber(s: string): Option<nat> {
    if s == "0" then Some(0)
    else if |s| > 1 && s[0] == '0' then
      if s[1] in "bB" then ScanDigits(s[2..], 2, true, 0, false)
      else if s[1] in "oO" then ScanDigits(s[2..], 8, true, 0, false)
      else if s[1] in "xX" then ScanDigits(s[2..], 16, true, 0, false)
      else ScanDigits(s[1..], 8, true, 0, false)
    else ScanDigits(s, 10, false, 0, false)
  }

  /** What `big.Int` makes of a string when it is to find the base itself. */
  function SetString(s: string): Option<int> {
    if s != "" && s[0] in "+-" then
      match ScanNumber(s[1..])
      case None => None
      case Some(n) => Some(if s[0] == '-' then -(n as int) else n)
    else
      match ScanNumber(s)
      case None => None
      case Some(n) => Some(n)
  }

  /** Whether a component carries the mark of a hardened key, and the number before the mark. */
  function Unmarked(component: string): (bool, string) {
    var c := TrimSpace(component);
    if c != "" && c[|c| - 1] == '\'' then (true, TrimSpace(c[..|c| - 1])) else (false, c)
  }

  /** A component's number, from 0 to 2^32 - 1, or to 2^31 - 1 above the first hardened index. */
  function ParseComponent(component: string): Parsed<Uint32> {
    var (hardened, core) := Unmarked(component);
    var base := if hardened then HARDENED else 0;
    match SetString(core)
    case None => Err(InvalidComponent)
    case Some(n) => if n < 0 || n > MAX_UINT32 - base then Err(OutOfRange(hardened)) else Ok(base + n)
  }

  function ParseAll(components: seq<string>): Parsed<Path> {
    if components == [] then Ok([])
    else
      match ParseAll(components[..|components| - 1])
      case Err(e) => Err(e)
      case Ok(path) =>
        match ParseComponent(components[|components| - 1])
        case Err(e) => Err(e)
        case Ok(n) => Ok(path + [n])
  }

  function ParsePath(path: string): Parsed<Path> {
    var components := Split(path);
    var first := TrimSpace(components[0]);
    if first == "" then Err(AmbiguousPath)
    else if first == "m" then
      if |components| == 1 then Err(EmptyPath) else ParseAll(components[1..])
    else
      match ParseAll(components)
      case Err(e) => Err(e)
      case Ok(rest) => Ok(DEFAULT_ROOT + rest)
  }

  method ParseDerivationPath(path: string) returns (r: Parsed<Path>)
    ensures r == ParsePath(path)
  {
    hide TrimSpace, Split, SetString, Unmarked;
    var components := Split(path);
    var result: Path := [];
    if TrimSpace(components[0]) == "" {
      return Err(AmbiguousPath);
    } else if TrimSpace(components[0]) == "m" {
      components := components[1..];
    } else {
      result := DEFAULT_ROOT;
    }
    if |components| == 0 { return Err(EmptyPath); }
    ghost var root := result;
    for i := 0 to |components|
      invariant ParseAll(components[..i]).Ok? && result == root + ParseAll(components[..i]).value
    {
      assert components[..i + 1][..i] == components[..i];
      FirstError(components, i);
      var (hardened, core) := Unmarked(components[i]);
      var value: Uint32 := if hardened then HARDENED else 0;
      var bigval := SetString(core);
      if bigval.None? { return Err(InvalidComponent); }
      var max := MAX_UINT32 - value;
      if bigval.value < 0 || bigval.value > max { return Err(OutOfRange(hardened)); }
      value := value + bigval.value;
      result := result + [value];
    }
    assert components[..|components|] == components;
    assert [] + ParseAll(components).value == ParseAll(components).value;
    r := Ok(result);
  }

  /** The first component that fails decides. */
  lemma {:induction false} FirstError(components: seq<string>, i: nat)
    requires i < |components| && ParseAll(components[..i]).Ok?
    ensures ParseComponent(components[i]).Err? ==> ParseAll(components) == Err(ParseComponent(components[i]).error)
    decreases |components|
  {
    hide ParseComponent;
    var init := components[..|components| - 1];
    if i < |init| {
      assert init[..i] == components[..i];
      FirstError(init, i);
    }
  }

  function Decimal(n: nat): string {
    if n < 10 then [('0' as int + n) as char] else Decimal(n / 10) + [('0' as int + n % 10) as char]
  }

  function RenderComponent(n: Uint32): string {
    if n >= HARDENED then Decimal(n - HARDENED) + "'" else Decimal(n)
  }

  function Render(path: Path): string {
    if path == [] then "m" else Render(path[..|path| - 1]) + "/" + RenderComponent(path[|path| - 1])
  }

  /** The canonical form of a path. */
  method String(path: Path) returns (result: string)
    ensures result == Render(path)
  {
    hide Decimal;
    result := "m";
    for i := 0 to |path|
      invariant result == Render(path[..i])
    {
      assert path[..i + 1][..i] == path[..i];
      var component: Uint32 := path[i];
      var hardened := false;
      if component >= HARDENED {
        component := component - HARDENED;
        hardened := true;
      }
      result := result + "/" + Decimal(component);
      if hardened {
        result := result + "'";
      }
      assert result == Render(path[..i]) + "/" + RenderComponent(path[i]);
    }
    assert path[..|path|] == path;
  }

  ghost predicate AllDigits(s: string) {
    s != "" && forall i :: 0 <= i < |s| ==> '0' <= s[i] <= '9'
  }

  /** A decimal has digits only, and no leading zero but in "0". */
  lemma {:induction false} DecimalShape(n: nat)
    ensures AllDigits(Decimal(n)) && (n == 0 ==> Decimal(n) == "0") && (n > 0 ==> Decimal(n)[0] != '0')
  {
    if n >= 10 { DecimalShape(n / 10); }
  }

  /** Scanning a decimal gives back its number. */
  lemma {:induction false} ScanDecimal(n: nat, t: string, sep: bool, any: bool)
    ensures ScanDigits(Decimal(n) + t, 10, sep, 0, any) == ScanDigits(t, 10, true, n, true)
    decreases n
  {
    var d := ('0' as int + n % 10) as char;
    assert Digit(d) == n % 10 && d != '_';
    assert ([d] + t)[1..] == t;
    if n >= 10 {
      assert Decimal(n) + t == Decimal(n / 10) + ([d] + t);
      ScanDecimal(n / 10, [d] + t, sep, any);
    } else {
      assert Decimal(n) + t == [d] + t;
    }
  }

  lemma DecimalParses(n: nat)
    ensures SetString(Decimal(n)) == Some(n)
  {
    hide Decimal, ScanDigits;
    DecimalShape(n);
    ScanDecimal(n, "", false, false);
    ScanEnd(n);
    assert Decimal(n) + "" == Decimal(n);
  }

  lemma ScanEnd(n: nat)
    ensures ScanDigits("", 10, true, n, true) == Some(n)
  {
  }

  /** White space, as Unicode has it. */
  lemma SpacesAre(c: char)
    ensures IsSpace(c) <==>
      || 9 <= c as int <= 13 || 8192 <= c as int <= 8202
      || c as int in {32, 133, 160, 5760, 8232, 8233, 8239, 8287, 12288}
  {
  }

  ghost predicate AllSpace(s: string) {
    forall i :: 0 <= i < |s| ==> IsSpace(s[i])
  }

  lemma {:induction false} TrimLeftOf(l: string, s: string)
    requires AllSpace(l)
    ensures TrimLeft(l + s) == TrimLeft(s)
  {
    if l == "" {
      assert l + s == s;
    } else {
      assert (l + s)[1..] == l[1..] + s;
      TrimLeftOf(l[1..], s);
    }
  }

  lemma {:induction false} TrimRightOf(s: string, r: string)
    requires AllSpace(r)
    ensures TrimRight(s + r) == TrimRight(s)
    decreases |r|
  {
    if r == "" {
      assert s + r == s;
    } else {
      assert (s + r)[..|s + r| - 1] == s + r[..|r| - 1];
      TrimRightOf(s, r[..|r| - 1]);
    }
  }

  lemma {:induction false} AllTrimmed(s: string)
    requires AllSpace(s)
    ensures TrimRight(s) == ""
  {
    assert "" + s == s;
    TrimRightOf("", s);
  }

  lemma {:induction false} TrimLeftMore(s: string, r: string)
    requires AllSpace(r)
    ensures AllSpace(s) ==> AllSpace(TrimLeft(s + r))
    ensures !AllSpace(s) ==> TrimLeft(s + r) == TrimLeft(s) + r
  {
    if s == "" {
      assert s + r == r;
      TrimLeftSpaces(r);
    } else {
      assert (s + r)[1..] == s[1..] + r;
      if IsSpace(s[0]) {
        assert s == [s[0]] + s[1..];
        TrimLeftMore(s[1..], r);
        assert AllSpace(s[1..]) ==> AllSpace(s);
      }
    }
  }

  lemma {:induction false} TrimLeftSpaces(r: string)
    requires AllSpace(r)
    ensures AllSpace(TrimLeft(r))
  {
    if r != "" { TrimLeftSpaces(r[1..]); }
  }

  /** White space around a string does not matter. */
  lemma TrimAround(l: string, s: string, r: string)
    requires AllSpace(l) && AllSpace(r)
    ensures TrimSpace(l + s + r) == TrimSpace(s)
  {
    assert l + s + r == l + (s + r);
    TrimLeftOf(l, s + r);
    TrimLeftMore(s, r);
    if AllSpace(s) {
      TrimLeftSpaces(s);
      AllTrimmed(TrimLeft(s));
      AllTrimmed(TrimLeft(s + r));
    } else {
      TrimRightOf(TrimLeft(s), r);
    }
  }

  /** A component may have white space around it, and before its mark. */
  lemma ComponentAround(l: string, n: Uint32, m: string, r: string)
    requires AllSpace(l) && AllSpace(m) && AllSpace(r)
    ensures n < HARDENED ==> ParseComponent(l + Decimal(n) + r) == Ok(n)
    ensures n < HARDENED ==> ParseComponent(l + Decimal(n) + m + "'" + r) == Ok(n + HARDENED)
  {
    hide Decimal, TrimSpace, SetString, IsSpace;
    if n < HARDENED {
      DecimalShape(n);
      DecimalParses(n);
      DigitsUntrimmed(Decimal(n));
      TrimAround(l, Decimal(n), r);
      var t := Decimal(n) + m + "'";
      SpacesAre(t[0]);
      SpacesAre('\'');
      Untrimmed(t);
      assert l + Decimal(n) + m + "'" + r == l + t + r;
      TrimAround(l, t, r);
      assert t[..|t| - 1] == Decimal(n) + m;
      assert "" + Decimal(n) + m == Decimal(n) + m;
      TrimAround("", Decimal(n), m);
    }
  }

  /** The digits of a number in a base. */
  ghost function InBase(n: nat, b: nat): string
    requires 2 <= b <= 16
    decreases n
  {
    if n < b then [DigitOf(n)] else InBase(n / b, b) + [DigitOf(n % b)]
  }

  ghost function DigitOf(d: nat): char
    requires d < 16
  {
    "0123456789abcdef"[d]
  }

  lemma DigitIs(d: nat)
    requires d < 16
    ensures Digit(DigitOf(d)) == d && DigitOf(d) != '_'
  {
    assert d < 10 ==> DigitOf(d) == ('0' as int + d) as char;
    assert d >= 10 ==> DigitOf(d) == ('a' as int + (d - 10)) as char;
  }

  /** Digits above nine can be written either way. */
  ghost function Capitals(s: string): string {
    seq(|s|, i requires 0 <= i < |s| => if 'a' <= s[i] <= 'z' then s[i] - 32 as char else s[i])
  }

  lemma {:induction false} CapitalsToo(s: string, b: nat, sep: bool, acc: nat, any: bool)
    requires b <= 36
    ensures ScanDigits(Capitals(s), b, sep, acc, any) == ScanDigits(s, b, sep, acc, any)
  {
    if s != "" {
      assert Capitals(s)[1..] == Capitals(s[1..]);
      CapitalsToo(s[1..], b, if s[0] == '_' then false else true,
                  if s[0] == '_' then acc else acc * b + Digit(s[0]), if s[0] == '_' then any else true);
    }
  }

  /** Scanning the digits of a number gives the number back. */
  lemma {:induction false} ScanInBase(n: nat, b: nat, t: string, sep: bool, any: bool)
    requires 2 <= b <= 16
    ensures ScanDigits(InBase(n, b) + t, b, sep, 0, any) == ScanDigits(t, b, true, n, true)
    decreases n
  {
    hide DigitOf, ScanDigits;
    InBaseIs(n, b);
    if n >= b {
      var c := DigitOf(n % b);
      assert InBase(n, b) + t == InBase(n / b, b) + ([c] + t);
      ScanInBase(n / b, b, [c] + t, sep, any);
      ScanOne(n % b, b, t, true, n / b, true);
    } else {
      assert InBase(n, b) + t == [DigitOf(n)] + t;
      ScanOne(n, b, t, sep, 0, any);
    }
  }

  lemma ScanOne(d: nat, b: nat, t: string, sep: bool, acc: nat, any: bool)
    requires d < b <= 16
    ensures ScanDigits([DigitOf(d)] + t, b, sep, acc, any) == ScanDigits(t, b, true, acc * b + d, true)
  {
    hide DigitOf;
    DigitIs(d);
    assert ([DigitOf(d)] + t)[1..] == t;
  }

  lemma InBaseIs(n: nat, b: nat)
    requires 2 <= b <= 16
    ensures n >= b ==> n / b < n && n % b < b && n / b * b + n % b == n
    ensures InBase(n, b) == if n < b then [DigitOf(n)] else InBase(n / b, b) + [DigitOf(n % b)]
  {
    hide DigitOf;
    if n >= b { Divided(n, b); }
  }

  lemma Divided(n: nat, b: nat)
    requires 2 <= b <= n
    ensures n / b < n && n % b < b && n / b * b + n % b == n
  {
    Smaller(n / b, b, n % b, n);
  }

  lemma Smaller(q: nat, b: nat, r: nat, n: nat)
    requires 2 <= b <= n && n == q * b + r
    ensures q < n
  {
    assert q * b == q * 2 + q * (b - 2);
  }

  /** Numbers can be written in binary, octal and hexadecimal, as their prefix says. */
  lemma PrefixedParses(n: nat)
    ensures SetString("0b" + InBase(n, 2)) == SetString("0B" + InBase(n, 2)) == Some(n)
    ensures SetString("0o" + InBase(n, 8)) == SetString("0O" + InBase(n, 8)) == Some(n)
    ensures SetString("0x" + InBase(n, 16)) == SetString("0X" + InBase(n, 16)) == Some(n)
  {
    hide InBase, ScanDigits;
    Prefixed("0b", InBase(n, 2));
    Prefixed("0B", InBase(n, 2));
    Prefixed("0o", InBase(n, 8));
    Prefixed("0O", InBase(n, 8));
    Prefixed("0x", InBase(n, 16));
    Prefixed("0X", InBase(n, 16));
    ScannedWhole(n, 2);
    ScannedWhole(n, 8);
    ScannedWhole(n, 16);
  }

  lemma ScannedWhole(n: nat, b: nat)
    requires 2 <= b <= 16
    ensures ScanDigits(InBase(n, b), b, true, 0, false) == Some(n)
  {
    ScanInBase(n, b, "", true, false);
    assert InBase(n, b) + "" == InBase(n, b);
  }

  lemma Prefixed(prefix: string, digits: string)
    requires |prefix| == 2 && prefix[0] == '0' && prefix[1] in "bBoOxX"
    ensures SetString(prefix + digits) ==
      match ScanDigits(digits, if prefix[1] in "bB" then 2 else if prefix[1] in "oO" then 8 else 16, true, 0, false)
      case None => None
      case Some(n) => Some(n)
  {
    var s := prefix + digits;
    assert s[0] == '0' && s[1] == prefix[1] && s[2..] == digits;
  }

  /** A leading zero means octal. */
  lemma OctalParses(n: nat)
    ensures SetString("0" + InBase(n, 8)) == Some(n)
  {
    hide ScanDigits;
    var digits := InBase(n, 8);
    InBaseStarts(n, 8);
    var s := "0" + digits;
    assert s[1..] == digits && s[1] == digits[0];
    ScannedWhole(n, 8);
  }

  lemma {:induction false} InBaseStarts(n: nat, b: nat)
    requires 2 <= b <= 10
    ensures InBase(n, b) != "" && '0' <= InBase(n, b)[0] <= '9'
    decreases n
  {
    if n >= b { InBaseStarts(n / b, b); }
  }

  /** A character that is no digit of the base makes the number invalid. */
  lemma {:induction false} StrangeDigit(s: string, b: nat, sep: bool, acc: nat, any: bool, i: nat)
    requires i < |s| && s[i] != '_' && Digit(s[i]) >= b
    ensures ScanDigits(s, b, sep, acc, any) == None
  {
    if i > 0 {
      assert s[1..][i - 1] == s[i];
      StrangeDigit(s[1..], b, if s[0] == '_' then false else true,
                   if s[0] == '_' then acc else acc * b + Digit(s[0]), if s[0] == '_' then any else true, i - 1);
    }
  }

  lemma AfterDigit(t: string, b: nat, acc: nat)
    ensures t != "" && t[0] != '_' ==> ScanDigits("_" + t, b, true, acc, true) == ScanDigits(t, b, true, acc, true)
    ensures t == "" || t[0] == '_' ==> ScanDigits("_" + t, b, true, acc, true) == None
  {
    assert ("_" + t)[1..] == t;
    assert ScanDigits("_" + t, b, true, acc, true) == ScanDigits(t, b, false, acc, true);
  }

  lemma FirstDigit(c: char, t: string, b: nat, sep: bool, acc: nat, any: bool)
    requires c != '_' && Digit(c) < b
    ensures ScanDigits([c] + t, b, sep, acc, any) == ScanDigits(t, b, true, acc * b + Digit(c), true)
  {
    assert ([c] + t)[1..] == t;
  }

  /** An underscore between two digits does not matter; two in a row, or one at the end, are invalid. */
  lemma {:induction false} Underscores(s: string, t: string, b: nat, sep: bool, acc: nat, any: bool)
    requires s != "" && forall i :: 0 <= i < |s| ==> s[i] != '_' && Digit(s[i]) < b
    ensures t != "" && t[0] != '_' ==>
      ScanDigits(s + "_" + t, b, sep, acc, any) == ScanDigits(s + t, b, sep, acc, any)
    ensures t == "" || t[0] == '_' ==> ScanDigits(s + "_" + t, b, sep, acc, any) == None
  {
    hide ScanDigits, Digit;
    var rest := s[1..];
    FirstDigit(s[0], rest + "_" + t, b, sep, acc, any);
    FirstDigit(s[0], rest + t, b, sep, acc, any);
    assert s + "_" + t == [s[0]] + (rest + "_" + t) && s + t == [s[0]] + (rest + t);
    if rest == "" {
      assert rest + "_" + t == "_" + t && rest + t == t;
      AfterDigit(t, b, acc * b + Digit(s[0]));
    } else {
      Underscores(rest, t, b, true, acc * b + Digit(s[0]), true);
    }
  }

  /** Negative numbers, and numbers that do not fit, are out of range. */
  lemma OutsideRange(n: nat)
    ensures n > 0 ==> ParseComponent("-" + Decimal(n)) == Err(OutOfRange(false))
    ensures n > 0xFFFF_FFFF ==> ParseComponent(Decimal(n)) == Err(OutOfRange(false))
    ensures n > 0x7FFF_FFFF ==> ParseComponent(Decimal(n) + "'") == Err(OutOfRange(true))
  {
    hide Decimal, TrimSpace, ScanNumber;
    DecimalShape(n);
    DecimalParses(n);
    DigitsUntrimmed(Decimal(n));
    var t, u := Decimal(n) + "'", "-" + Decimal(n);
    assert t[..|t| - 1] == Decimal(n) && u[1..] == Decimal(n) && u[|u| - 1] == Decimal(n)[|Decimal(n)| - 1];
    Untrimmed(u);
  }

  lemma Untrimmed(s: string)
    requires s != "" && !IsSpace(s[0]) && !IsSpace(s[|s| - 1])
    ensures TrimSpace(s) == s
  {
  }

  lemma DigitsUntrimmed(s: string)
    requires AllDigits(s)
    ensures TrimSpace(s) == s && TrimSpace(s + "'") == s + "'"
  {
    var t := s + "'";
    assert t[0] == s[0] && t[|t| - 1] == '\'';
    Untrimmed(s);
    Untrimmed(t);
  }

  /** A printed component parses to itself. */
  lemma ComponentParses(n: Uint32)
    ensures ParseComponent(RenderComponent(n)) == Ok(n)
  {
    hide Decimal, SetString, TrimSpace;
    var m := if n >= HARDENED then n - HARDENED else n;
    DecimalShape(m);
    DigitsUntrimmed(Decimal(m));
    DecimalParses(m);
    var t := Decimal(m) + "'";
    assert t[..|t| - 1] == Decimal(m);
  }

  ghost predicate NoSlash(s: string) {
    forall i :: 0 <= i < |s| ==> s[i] != '/'
  }

  lemma {:induction false} SplitWhole(s: string)
    requires NoSlash(s)
    ensures Split(s) == [s]
  {
    if s != "" {
      SplitWhole(s[1..]);
      assert [s[0]] + s[1..] == s;
    }
  }

  /** What comes after the last slash is the last part. */
  lemma {:induction false} SplitLast(s: string, c: string)
    requires NoSlash(c)
    ensures Split(s + "/" + c) == Split(s) + [c]
    decreases |s|
  {
    var t := s + "/" + c;
    if s == "" {
      assert t[1..] == c;
      SplitWhole(c);
    } else {
      assert t[0] == s[0] && t[1..] == s[1..] + "/" + c;
      SplitLast(s[1..], c);
    }
  }

  lemma ComponentNoSlash(n: Uint32)
    ensures NoSlash(RenderComponent(n))
  {
    hide Decimal;
    DecimalShape(if n >= HARDENED then n - HARDENED else n);
  }

  function RenderAll(path: Path): seq<string> {
    if path == [] then [] else RenderAll(path[..|path| - 1]) + [RenderComponent(path[|path| - 1])]
  }

  lemma {:induction false} RenderSplits(path: Path)
    ensures Split(Render(path)) == ["m"] + RenderAll(path)
  {
    hide Split, RenderComponent;
    if path == [] {
      SplitWhole("m");
    } else {
      RenderSplits(path[..|path| - 1]);
      ComponentNoSlash(path[|path| - 1]);
      SplitLast(Render(path[..|path| - 1]), RenderComponent(path[|path| - 1]));
    }
  }

  lemma {:induction false} AllParse(path: Path)
    ensures ParseAll(RenderAll(path)) == Ok(path)
  {
    hide RenderComponent, ParseComponent;
    if path != [] {
      var init, last := path[..|path| - 1], path[|path| - 1];
      AllParse(init);
      ComponentParses(last);
      assert RenderAll(path)[..|RenderAll(path)| - 1] == RenderAll(init);
      assert path == init + [last];
    }
  }

  /** A printed path parses to itself exactly when it is not empty. */
  lemma RoundTrip(path: Path)
    ensures ParsePath(Render(path)) == Ok(path) <==> path != []
    ensures path == [] ==> ParsePath(Render(path)) == Err(EmptyPath)
  {
    hide Split, TrimSpace;
    RenderSplits(path);
    AllParse(path);
    Untrimmed("m");
    assert (["m"] + RenderAll(path))[1..] == RenderAll(path);
    if path != [] { assert |RenderAll(path)| > 0; }
  }

  /** A path without the leading "m/" is read below m/44'/60'/0'/0. */
  lemma Relative(path: Path)
    requires path != []
    ensures |Render(path)| > 2 && ParsePath(Render(path)[2..]) ==
      Ok([0x8000_0000 + 44, 0x8000_0000 + 60, 0x8000_0000, 0] + path)
  {
    hide Split, TrimSpace, Render, RenderComponent, ParseAll;
    RenderSplits(path);
    RenderedAbsolute(path);
    SplitM(Render(path)[2..]);
    assert (["m"] + Split(Render(path)[2..]))[1..] == Split(Render(path)[2..]);
    assert (["m"] + RenderAll(path))[1..] == RenderAll(path);
    AllParse(path);
    FirstRendered(path);
  }

  lemma {:induction false} RenderedAbsolute(path: Path)
    requires path != []
    ensures |Render(path)| > 2 && Render(path) == "m/" + Render(path)[2..]
  {
    hide RenderComponent;
    var init := path[..|path| - 1];
    RenderNonempty(path[|path| - 1]);
    if init != [] {
      RenderedAbsolute(init);
    } else {
      assert Render(init) == "m";
    }
  }

  lemma RenderNonempty(n: Uint32)
    ensures RenderComponent(n) != "" && TrimSpace(RenderComponent(n)) == RenderComponent(n)
    ensures '0' <= RenderComponent(n)[0] <= '9'
  {
    hide Decimal, TrimSpace;
    var m := if n >= HARDENED then n - HARDENED else n;
    DecimalShape(m);
    DigitsUntrimmed(Decimal(m));
  }

  lemma SplitM(s: string)
    ensures Split("m/" + s) == ["m"] + Split(s)
  {
    var t := "m/" + s;
    assert t[1..] == "/" + s && ("/" + s)[1..] == s;
    assert Split("/" + s) == [""] + Split(s);
    assert ['m'] + "" == "m";
    assert ([""] + Split(s))[1..] == Split(s);
  }

  lemma {:induction false} FirstRendered(path: Path)
    requires path != []
    ensures RenderAll(path) != [] && TrimSpace(RenderAll(path)[0]) !in {"", "m"}
  {
    hide RenderComponent, TrimSpace;
    RenderNonempty(path[|path| - 1]);
    if |path| > 1 { FirstRendered(path[..|path| - 1]); }
  }

  /** What is refused for its form: nothing at all, a leading slash, a root alone, and an empty component
      at the end. */
  lemma RefusedPaths(s: string)
    ensures ParsePath("") == ParsePath("/" + s) == Err(AmbiguousPath)
    ensures ParsePath("m") == Err(EmptyPath) && ParsePath("m/") == Err(InvalidComponent)
  {
    hide IsSpace;
    assert ("/" + s)[1..] == s && Split("/" + s) == [""] + Split(s);
    SplitM("");
    assert "m/" + "" == "m/" && Split("") == [""];
    SplitWhole("m");
    SpacesAre('m');
    Untrimmed("m");
    assert (["m"] + [""])[1..] == [""];
    assert ParseComponent("") == Err(InvalidComponent);
    assert [""][..0] == [];
  }

  /** Different paths print differently. */
  lemma PrintsApart(p: Path, q: Path)
    requires Render(p) == Render(q)
    ensures p == q
  {
    RoundTrip(p);
    RoundTrip(q);
  }

  /** The components of `path` are those of `components`, whose numbers are within range and
      hardened if and only if they are marked. */
  ghost predicate Reads(components: seq<string>, path: seq<Uint32>) {
    && |path| == |components|
    && forall i :: 0 <= i < |path| ==>
      var (hardened, core) := Unmarked(components[i]);
      && SetString(core).Some?
      && path[i] == (if hardened then HARDENED else 0) + SetString(core).value
      && 0 <= SetString(core).value <= MAX_UINT32 - if hardened then HARDENED else 0
  }

  lemma {:induction false} AllRead(components: seq<string>)
    ensures ParseAll(components).Ok? ==> Reads(components, ParseAll(components).value)
  {
    hide Unmarked, SetString;
    if components != [] && ParseAll(components).Ok? {
      AllRead(components[..|components| - 1]);
    }
  }

  /** What parsing accepts: an absolute path as it stands, a relative one below the default root,
      never empty, and every sum of a hardened base and its number within 32 bits. */
  lemma ParsedReads(path: string)
    requires ParsePath(path).Ok?
    ensures var components, parsed := Split(path), ParsePath(path).value;
      if TrimSpace(components[0]) == "m" then parsed != [] && Reads(components[1..], parsed)
      else
        && |parsed| > |DEFAULT_ROOT| && parsed[..|DEFAULT_ROOT|] == DEFAULT_ROOT
        && Reads(components, parsed[|DEFAULT_ROOT|..])
  {
    hide Split, TrimSpace, ParseAll, Reads;
    var components := Split(path);
    if TrimSpace(components[0]) == "m" {
      AllRead(components[1..]);
      if Reads(components[1..], ParsePath(path).value) { ReadsLength(components[1..], ParsePath(path).value); }
    } else {
      AllRead(components);
      ReadsLength(components, ParseAll(components).value);
      assert (DEFAULT_ROOT + ParseAll(components).value)[|DEFAULT_ROOT|..] == ParseAll(components).value;
    }
  }

  lemma ReadsLength(components: seq<string>, path: seq<Uint32>)
    requires Reads(components, path)
    ensures |path| == |components|
  {
  }

  /** Parsing and printing settles on a canonical form: printing what was parsed and parsing it
      again gives the same path. */
  lemma Canonical(path: string)
    requires ParsePath(path).Ok?
    ensures ParsePath(Render(ParsePath(path).value)) == ParsePath(path)
  {
    hide ParsePath, Render, Split;
    ParsedReads(path);
    RoundTrip(ParsePath(path).value);
  }
}
