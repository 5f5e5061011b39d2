/**
 Device names: the two sysfs path printers, the `sscanf` that reads a directory entry back, and the name of the
 `/dev` node.  Everything works on real digit strings.
 */
module Naming {
  import opened Kernel

  const SYS_BUS_PCIDEVS_PATH := "/sys/bus/pci/devices"
  const DEV_NAME_MAX_SIZE: nat := 32
  const PATH_MAX: nat := 4096

  // ---------------------------------------------------------------- digits

  /** The digit `d` as `printf` writes it, in lower or upper case. */
  function DigitChar(d: nat, upper: bool): (c: char)
    requires d < 16
    ensures DigitValue(c) == Some(d)
  {
    if d < 10 then '0' + d as char
    else if upper then 'A' + (d - 10) as char
    else 'a' + (d - 10) as char
  }

  /** What a character is worth as a hexadecimal digit. */
  function DigitValue(c: char): (r: Option<nat>)
    ensures r.Some? ==> r.value < 16
  {
    if '0' <= c <= '9' then Some((c - '0') as nat)
    else if 'a' <= c <= 'f' then Some((c - 'a') as nat + 10)
    else if 'A' <= c <= 'F' then Some((c - 'A') as nat + 10)
    else None
  }

  predicate IsDigit(c: char, base: nat)
  {
    DigitValue(c).Some? && DigitValue(c).value < base
  }

  ghost predicate AllDigits(s: string, base: nat)
  {
    forall i :: 0 <= i < |s| ==> IsDigit(s[i], base)
  }

  /** `%x`, `%X` and `%u` without a width: the shortest digit string of `n`. */
  function Digits(n: nat, base: nat, upper: bool): (s: string)
    requires 2 <= base <= 16
    ensures |s| > 0 && AllDigits(s, base)
    decreases n
  {
    if n < base then [DigitChar(n, upper)]
    else
      SmallerQuotient(n, base);
      Digits(n / base, base, upper) + [DigitChar(n % base, upper)]
  }

  function Zeros(k: nat): (s: string)
    ensures |s| == k && forall i :: 0 <= i < k ==> s[i] == '0'
  {
    seq(k, _ => '0')
  }

  /** A `0w` width: zeros in front up to `w` characters, never a cut. */
  function Pad(s: string, w: nat): string
  {
    if |s| < w then Zeros(w - |s|) + s else s
  }

  function HexField(n: nat, w: nat, upper: bool): string
  {
    Pad(Digits(n, 16, upper), w)
  }

  /** The number a digit string stands for; characters that are no digits count zero. */
  function Value(s: string, base: nat): nat
  {
    if s == [] then 0
    else
      var last := DigitValue(s[|s| - 1]);
      Value(s[..|s| - 1], base) * base + (if last.Some? then last.value else 0)
  }

  lemma {:induction false} DigitsValue(n: nat, base: nat, upper: bool)
    requires 2 <= base <= 16
    ensures Value(Digits(n, base, upper), base) == n
    decreases n
  {
    var s := Digits(n, base, upper);
    if n < base {
      assert s[..0] == [];
    } else {
      SmallerQuotient(n, base);
      DigitsValue(n / base, base, upper);
      assert s[..|s| - 1] == Digits(n / base, base, upper);
      DivMod(n, base);
    }
  }

  lemma DivMod(n: nat, b: nat)
    requires b > 0
    ensures n / b * b + n % b == n
  {
  }

  lemma SmallerQuotient(n: nat, b: nat)
    requires 2 <= b <= n
    ensures n / b < n
  {
    var q := n / b;
    assert n >= q * b >= q * 2;
  }

  lemma {:induction false} PaddingKeepsValue(k: nat, s: string, base: nat)
    ensures Value(Zeros(k) + s, base) == Value(s, base)
    decreases k + |s|
  {
    var t := Zeros(k) + s;
    if |s| > 0 {
      assert t[..|t| - 1] == Zeros(k) + s[..|s| - 1];
      PaddingKeepsValue(k, s[..|s| - 1], base);
    } else if k > 0 {
      assert t[..|t| - 1] == Zeros(k - 1) + s;
      PaddingKeepsValue(k - 1, s, base);
    } else {
      assert t == s;
    }
  }

  lemma FieldValue(n: nat, base: nat, w: nat, upper: bool)
    requires 2 <= base <= 16
    ensures var t := Pad(Digits(n, base, upper), w);
            |t| > 0 && |t| >= w && AllDigits(t, base) && Value(t, base) == n
  {
    var d := Digits(n, base, upper);
    DigitsValue(n, base, upper);
    if |d| < w {
      PaddingKeepsValue(w - |d|, d, base);
      assert DigitValue('0') == Some(0);
    }
  }

  /** How many digits `n` needs: at most `k` exactly when `n` is below `base` to the power `k`. */
  lemma {:induction false} DigitCount(n: nat, base: nat, upper: bool, k: nat)
    requires 2 <= base <= 16 && k > 0
    ensures |Digits(n, base, upper)| <= k <==> n < Power(base, k)
    decreases k
  {
    if n >= base {
      if k > 1 {
        DigitCount(n / base, base, upper, k - 1);
        DivBelow(n, base, Power(base, k - 1));
      } else {
        assert Power(base, 1) == base * Power(base, 0) == base;
      }
    } else {
      PowerAtLeast(base, k);
    }
  }

  function Power(base: nat, k: nat): nat
  {
    if k == 0 then 1 else base * Power(base, k - 1)
  }

  lemma {:induction false} PowerAtLeast(base: nat, k: nat)
    requires base > 0 && k > 0
    ensures Power(base, k) >= base
  {
    if k > 1 {
      PowerAtLeast(base, k - 1);
      assert base * Power(base, k - 1) >= 1 * Power(base, k - 1);
    }
  }

  lemma DivBelow(n: nat, b: nat, p: nat)
    requires b > 0
    ensures n / b < p <==> n < b * p
  {
    var q, r := n / b, n % b;
    assert n == b * q + r;
    if q < p {
      assert b * (q + 1) <= b * p;
    } else {
      assert b * q >= b * p;
    }
  }

  lemma HexDigitLimits(n: nat, upper: bool)
    ensures |Digits(n, 16, upper)| <= 1 <==> n <= 0xF
    ensures |Digits(n, 16, upper)| <= 2 <==> n <= 0xFF
    ensures |Digits(n, 16, upper)| <= 4 <==> n <= 0xFFFF
    ensures |Digits(n, 16, upper)| <= 8 <==> n < U32
  {
    assert Power(16, 1) == 16 * Power(16, 0);
    assert Power(16, 2) == 16 * Power(16, 1);
    assert Power(16, 3) == 16 * Power(16, 2);
    assert Power(16, 4) == 16 * Power(16, 3);
    assert Power(16, 5) == 16 * Power(16, 4);
    assert Power(16, 6) == 16 * Power(16, 5);
    assert Power(16, 7) == 16 * Power(16, 6);
    assert Power(16, 8) == 16 * Power(16, 7);
    DigitCount(n, 16, upper, 1);
    DigitCount(n, 16, upper, 2);
    DigitCount(n, 16, upper, 4);
    DigitCount(n, 16, upper, 8);
  }

  lemma DecimalLimits(n: nat)
    ensures |Digits(n, 10, false)| <= 1 <==> n <= 9
    ensures n < U32 ==> |Digits(n, 10, false)| <= 10
  {
    assert Power(10, 1) == 10 * Power(10, 0);
    assert Power(10, 2) == 10 * Power(10, 1);
    assert Power(10, 3) == 10 * Power(10, 2);
    assert Power(10, 4) == 10 * Power(10, 3);
    assert Power(10, 5) == 10 * Power(10, 4);
    assert Power(10, 6) == 10 * Power(10, 5);
    assert Power(10, 7) == 10 * Power(10, 6);
    assert Power(10, 8) == 10 * Power(10, 7);
    assert Power(10, 9) == 10 * Power(10, 8);
    assert Power(10, 10) == 10 * Power(10, 9);
    DigitCount(n, 10, false, 1);
    DigitCount(n, 10, false, 10);
  }

  // ---------------------------------------------------------------- what printf writes

  predicate IsCaseDigit(c: char, base: nat, upper: bool)
  {
    IsDigit(c, base) && (upper ==> !('a' <= c <= 'f')) && (!upper ==> !('A' <= c <= 'F'))
  }

  /** `t` is made like a number of at least `w` digits: no zero in front that the width does not ask for. */
  ghost predicate Shaped(t: string, base: nat, w: nat, upper: bool)
  {
    && 0 < |t| && w <= |t|
    && (|t| > w && |t| > 1 ==> t[0] != '0')
    && (forall i :: 0 <= i < |t| ==> IsCaseDigit(t[i], base, upper))
  }

  lemma {:induction false} DigitsShaped(n: nat, base: nat, upper: bool)
    requires 2 <= base <= 16
    ensures Shaped(Digits(n, base, upper), base, 0, upper)
    ensures n > 0 ==> Digits(n, base, upper)[0] != '0'
    decreases n
  {
    if n >= base {
      SmallerQuotient(n, base);
      QuotientPositive(n, base);
      DigitsShaped(n / base, base, upper);
    }
  }

  lemma QuotientPositive(n: nat, b: nat)
    requires 0 < b <= n
    ensures n / b > 0
  {
    if n / b == 0 {
      DivMod(n, b);
    }
  }

  lemma QuotientAndDigit(n: nat, b: nat, q: nat, d: nat)
    requires d < b && n == q * b + d
    ensures n / b == q && n % b == d
    ensures q > 0 ==> n >= b
  {
    DivBelow(n, b, q);
    DivBelow(n, b, q + 1);
    DivMod(n, b);
  }

  lemma NextDigit(n: nat, base: nat, q: nat, d: nat, upper: bool)
    requires 2 <= base <= 16 && d < base && n == q * base + d && q > 0
    ensures n > 0 && Digits(n, base, upper) == Digits(q, base, upper) + [DigitChar(d, upper)]
  {
    QuotientAndDigit(n, base, q, d);
  }

  lemma ValueOfLast(t: string, base: nat, init: string, d: nat)
    requires t != [] && init == t[..|t| - 1] && DigitValue(t[|t| - 1]) == Some(d)
    ensures Value(t, base) == Value(init, base) * base + d
  {
  }

  lemma DigitIs(c: char, base: nat, upper: bool)
    requires base <= 16 && IsCaseDigit(c, base, upper)
    ensures DigitChar(DigitValue(c).value, upper) == c && (c != '0' ==> DigitValue(c).value > 0)
  {
  }

  lemma OneDigit(t: string, base: nat, upper: bool)
    requires 2 <= base <= 16 && |t| == 1 && IsCaseDigit(t[0], base, upper)
    ensures t == Digits(Value(t, base), base, upper)
    ensures t[0] != '0' ==> Value(t, base) > 0
  {
    assert t[..0] == [];
    ValueOfLast(t, base, [], DigitValue(t[0]).value);
    DigitIs(t[0], base, upper);
  }

  /** A digit string with a first digit other than 0, or of one digit, is what is printed for its value. */
  lemma {:induction false} ShapedIsDigits(t: string, base: nat, upper: bool)
    requires 2 <= base <= 16 && Shaped(t, base, 0, upper)
    ensures t == Digits(Value(t, base), base, upper)
    ensures t[0] != '0' ==> Value(t, base) > 0
    decreases |t|
  {
    var k := |t| - 1;
    assert IsCaseDigit(t[k], base, upper);
    if k == 0 {
      OneDigit(t, base, upper);
    } else {
      var init, d := t[..k], DigitValue(t[k]).value;
      assert init[0] == t[0];
      DigitIs(t[k], base, upper);
      assert DigitChar(d, upper) == t[k];
      ShapedIsDigits(init, base, upper);
      ValueOfLast(t, base, init, d);
      NextDigit(Value(t, base), base, Value(init, base), d, upper);
      assert t == init + [t[k]];
    }
  }

  lemma PadLonger(s: string, v: nat, w: nat)
    requires |s| <= v && w == v + 1
    ensures Pad(s, w) == ['0'] + Pad(s, v)
  {
    assert Zeros(w - |s|) == ['0'] + Zeros(v - |s|);
  }

  /**
   The printed field is the one string of its shape with that value: `%0w` in this base and case writes `t` for `n`
   exactly when `t` has at least `w` digits, none in front that could go, and the value `n`.
   */
  lemma FieldExactly(t: string, n: nat, base: nat, w: nat, upper: bool)
    requires 2 <= base <= 16
    ensures t == Pad(Digits(n, base, upper), w) <==> Shaped(t, base, w, upper) && Value(t, base) == n
  {
    FieldShaped(n, base, w, upper);
    FieldValue(n, base, w, upper);
    if Shaped(t, base, w, upper) {
      ShapedIsPadded(t, base, w, upper);
    }
  }

  lemma {:induction false} ShapedIsPadded(t: string, base: nat, w: nat, upper: bool)
    requires 2 <= base <= 16 && Shaped(t, base, w, upper)
    ensures t == Pad(Digits(Value(t, base), base, upper), w)
    decreases |t|
  {
    if |t| > 1 && t[0] == '0' {
      var v, u := w - 1, t[1..];
      assert Zeros(1) == ['0'] && t == Zeros(1) + u;
      PaddingKeepsValue(1, u, base);
      ShapedIsPadded(u, base, v, upper);
      PadLonger(Digits(Value(u, base), base, upper), v, w);
    } else {
      ShapedIsDigits(t, base, upper);
    }
  }

  lemma FieldShaped(n: nat, base: nat, w: nat, upper: bool)
    requires 2 <= base <= 16
    ensures Shaped(Pad(Digits(n, base, upper), w), base, w, upper)
  {
    DigitsShaped(n, base, upper);
    assert IsCaseDigit('0', base, upper);
  }

  // ---------------------------------------------------------------- printers

  /** The domain as both path macros print it: one of two formats, by size. */
  function DomainText(domain: nat): string
  {
    if domain <= 0xFFFF then HexField(domain, 4, false) else Digits(domain, 16, false)
  }

  /** `DDDD:BB:DD.F`, the last component of a device's sysfs directory. */
  function PrintName(s: Slot): string
  {
    DomainText(s.domain) + ":" + HexField(s.bus, 2, false) + ":" + HexField(s.dev, 2, false) + "." +
    Digits(s.func, 10, false)
  }

  function Truncate(s: string, size: nat): string
    requires size > 0
  {
    if |s| < size then s else s[..size - 1]
  }

  /** `CRONO_CONSTRUCT_DEV_SLINK_PATH`. */
  function SlinkPath(s: Slot): string
  {
    Truncate(SYS_BUS_PCIDEVS_PATH + "/" + PrintName(s), PATH_MAX)
  }

  /** `CRONO_CONSTRUCT_CONFIG_FILE_PATH`. */
  function ConfigPath(s: Slot): string
  {
    Truncate(SYS_BUS_PCIDEVS_PATH + "/" + PrintName(s) + "/config", PATH_MAX)
  }

  /** The suffix of the `/dev` node name: domain, bus, device and function run together. */
  function MiscdevTail(s: Slot): string
  {
    HexField(s.domain, 2, true) + HexField(s.bus, 2, true) + HexField(s.dev, 2, true) + HexField(s.func, 1, true)
  }

  function MiscdevText(deviceId: nat, s: Slot): string
  {
    "crono_" + HexField(deviceId, 2, true) + "_" + MiscdevTail(s)
  }

  /** `CRONO_CONSTRUCT_MISCDEV_NAME`: the text cut to its 32-byte buffer. */
  function MiscdevName(deviceId: nat, s: Slot): string
  {
    Truncate(MiscdevText(deviceId, s), DEV_NAME_MAX_SIZE)
  }

  // ---------------------------------------------------------------- sscanf

  /** Length of the longest run of digits at the front of `s`, at most `width`. */
  function DigitRun(s: string, base: nat, width: nat): (k: nat)
    ensures k <= |s| && k <= width
  {
    if s == [] || width == 0 || !IsDigit(s[0], base) then 0 else 1 + DigitRun(s[1..], base, width - 1)
  }

  /** What `strtoul` leaves in a 32-bit `unsigned`. */
  function ToUnsigned(v: nat): nat
  {
    if v < U64 then v % U32 else U32 - 1
  }

  /** One numeric conversion: the value and the rest of the input, or a matching failure. */
  function ScanNumber(s: string, base: nat, width: nat): Option<(nat, string)>
  {
    var k := DigitRun(s, base, width);
    if k == 0 then None else Some((ToUnsigned(Value(s[..k], base)), s[k..]))
  }

  /** A literal character of the format, then the text after it. */
  function ScanLiteral(s: string, c: char): Option<string>
  {
    if s == [] || s[0] != c then None else Some(s[1..])
  }

  /** The format from `.%1u` on. */
  function ScanFunc(s: string, prev: Slot, funcWidth: nat): Slot
  {
    match ScanLiteral(s, '.')
    case None => prev
    case Some(t) =>
      match ScanNumber(t, 10, funcWidth)
      case None => prev
      case Some((func, _)) => prev.(func := func)
  }

  /** The format from the second `:%02x` on. */
  function ScanDev(s: string, prev: Slot, hexWidth: nat, funcWidth: nat): Slot
  {
    match ScanLiteral(s, ':')
    case None => prev
    case Some(t) =>
      match ScanNumber(t, 16, hexWidth)
      case None => prev
      case Some((dev, rest)) => ScanFunc(rest, prev.(dev := dev), funcWidth)
  }

  /** The format from the first `:%02x` on. */
  function ScanBus(s: string, prev: Slot, hexWidth: nat, funcWidth: nat): Slot
  {
    match ScanLiteral(s, ':')
    case None => prev
    case Some(t) =>
      match ScanNumber(t, 16, hexWidth)
      case None => prev
      case Some((bus, rest)) => ScanDev(rest, prev.(bus := bus), hexWidth, funcWidth)
  }

  /**
   `sscanf(name, "%x:%02x:%02x.%1u", ...)` with the two field widths as arguments.  The call ignores the number of
   conversions, so a variable whose conversion is not reached keeps the value it had (`prev`).
   */
  function ScanWidths(name: string, prev: Slot, hexWidth: nat, funcWidth: nat): Slot
  {
    match ScanNumber(name, 16, |name|)
    case None => prev
    case Some((domain, rest)) => ScanBus(rest, prev.(domain := domain), hexWidth, funcWidth)
  }

  /** The conversion as both directory loops write it. */
  function ScanName(name: string, prev: Slot): Slot
  {
    ScanWidths(name, prev, 2, 1)
  }

  /** From `.%1u` on, literal and conversion match. */
  predicate CompletesFunc(s: string)
  {
    var t := ScanLiteral(s, '.');
    t.Some? && ScanNumber(t.value, 10, 1).Some?
  }

  predicate CompletesDev(s: string)
  {
    var t := ScanLiteral(s, ':');
    t.Some? && ScanNumber(t.value, 16, 2).Some? && CompletesFunc(ScanNumber(t.value, 16, 2).value.1)
  }

  predicate CompletesBus(s: string)
  {
    var t := ScanLiteral(s, ':');
    t.Some? && ScanNumber(t.value, 16, 2).Some? && CompletesDev(ScanNumber(t.value, 16, 2).value.1)
  }

  /** All four conversions and the three literals between them match: `sscanf` would return 4. */
  predicate Completes(name: string)
  {
    var d := ScanNumber(name, 16, |name|);
    d.Some? && CompletesBus(d.value.1)
  }

  /** Not even the first conversion matches. */
  predicate NoLeadingDigit(name: string)
  {
    name == [] || !IsDigit(name[0], 16)
  }

  ghost predicate Is32Bit(s: Slot)
  {
    s.domain < U32 && s.bus < U32 && s.dev < U32 && s.func < U32
  }

  /** The slots whose printed name the source's `sscanf` widths can hold. */
  ghost predicate Scannable(s: Slot)
  {
    s.domain < U32 && s.bus <= 0xFF && s.dev <= 0xFF && s.func <= 9
  }

  // ---------------------------------------------------------------- print and parse

  lemma {:induction false} DigitRunOf(t: string, rest: string, base: nat, width: nat)
    requires AllDigits(t, base)
    requires rest == [] || !IsDigit(rest[0], base)
    ensures DigitRun(t + rest, base, width) == if |t| <= width then |t| else width
  {
    var s := t + rest;
    if t != [] && width > 0 {
      assert s[0] == t[0] && s[1..] == t[1..] + rest;
      DigitRunOf(t[1..], rest, base, width - 1);
    } else if t == [] {
      assert s == rest;
    }
  }

  /** Scanning a printed field gives back its number when it fits the width. */
  lemma ScanField(n: nat, w: nat, rest: string, base: nat, width: nat)
    requires 2 <= base <= 16 && n < U32
    requires rest == [] || !IsDigit(rest[0], base)
    requires |Pad(Digits(n, base, false), w)| <= width
    ensures ScanNumber(Pad(Digits(n, base, false), w) + rest, base, width) == Some((n, rest))
  {
    var t := Pad(Digits(n, base, false), w);
    FieldValue(n, base, w, false);
    DigitRunOf(t, rest, base, width);
    assert (t + rest)[..|t|] == t && (t + rest)[|t|..] == rest;
  }

  lemma TwoDigits(a: nat, b: nat, base: nat)
    requires a < base <= 16 && b < base
    ensures a * base + b < 0x100
  {
    assert a * base <= 15 * base;
  }

  /** At most two digits: the value is below 16 * 16, and below the base for one digit. */
  lemma ShortValue(t: string, base: nat)
    requires AllDigits(t, base) && 2 <= base <= 16 && 0 < |t| <= 2
    ensures Value(t, base) < if |t| == 1 then base else 0x100
  {
    var n := |t| - 1;
    assert IsDigit(t[n], base);
    assert t[..0] == [] && Value(t[..0], base) == 0;
    if n == 1 {
      assert IsDigit(t[0], base) && t[..1][..0] == [];
      assert Value(t[..1], base) == DigitValue(t[0]).value;
      TwoDigits(DigitValue(t[0]).value, DigitValue(t[1]).value, base);
    }
  }

  /** The run a conversion takes is made of digits only. */
  lemma {:induction false} RunIsDigits(s: string, base: nat, width: nat)
    ensures AllDigits(s[..DigitRun(s, base, width)], base)
  {
    if s != [] && width > 0 && IsDigit(s[0], base) {
      RunIsDigits(s[1..], base, width - 1);
      var k := DigitRun(s[1..], base, width - 1);
      assert s[..k + 1] == [s[0]] + s[1..][..k];
    }
  }

  lemma ScanBelow(s: string, base: nat, width: nat)
    requires 2 <= base <= 16 && 0 < width <= 2
    requires ScanNumber(s, base, width).Some?
    ensures ScanNumber(s, base, width).value.0 < if width == 1 then base else 0x100
  {
    RunIsDigits(s, base, width);
    ShortValue(s[..DigitRun(s, base, width)], base);
  }

  /** A field longer than its width is cut, so what is stored is small. */
  lemma CutField(n: nat, w: nat, rest: string, base: nat, width: nat)
    requires 2 <= base <= 16 && 0 < width <= 2
    ensures var r := ScanNumber(Pad(Digits(n, base, false), w) + rest, base, width);
            r.Some? && r.value.0 < if width == 1 then base else 0x100
  {
    var t := Pad(Digits(n, base, false), w);
    FieldValue(n, base, w, false);
    assert (t + rest)[0] == t[0];
    ScanBelow(t + rest, base, width);
  }

  /** The two formats print the same text: `%04x` already grows past four digits. */
  lemma DomainFormatsAgree(domain: nat)
    ensures DomainText(domain) == HexField(domain, 4, false)
  {
    HexDigitLimits(domain, false);
  }

  function FuncText(s: Slot): string
  {
    "." + Digits(s.func, 10, false)
  }

  function DevText(s: Slot): string
  {
    ":" + HexField(s.dev, 2, false) + FuncText(s)
  }

  function BusText(s: Slot): string
  {
    ":" + HexField(s.bus, 2, false) + DevText(s)
  }

  lemma NameInParts(s: Slot)
    ensures PrintName(s) == HexField(s.domain, 4, false) + BusText(s)
  {
    DomainFormatsAgree(s.domain);
    assert HexField(s.domain, 4, false) + ":" + HexField(s.bus, 2, false) + ":" + HexField(s.dev, 2, false) + "." +
           Digits(s.func, 10, false) == HexField(s.domain, 4, false) + BusText(s);
  }

  lemma ScanFuncText(s: Slot, prev: Slot, w: nat)
    requires s.func < U32 && |Digits(s.func, 10, false)| <= w
    ensures ScanFunc(FuncText(s), prev, w) == prev.(func := s.func)
  {
    var f := Digits(s.func, 10, false);
    assert FuncText(s)[1..] == f == f + [];
    ScanField(s.func, 0, [], 10, w);
  }

  lemma ScanDevText(s: Slot, prev: Slot, w: nat, wf: nat)
    requires s.dev < U32 && |HexField(s.dev, 2, false)| <= w
    ensures ScanDev(DevText(s), prev, w, wf) == ScanFunc(FuncText(s), prev.(dev := s.dev), wf)
  {
    assert DevText(s)[1..] == HexField(s.dev, 2, false) + FuncText(s);
    ScanField(s.dev, 2, FuncText(s), 16, w);
  }

  lemma ScanBusText(s: Slot, prev: Slot, w: nat, wf: nat)
    requires s.bus < U32 && |HexField(s.bus, 2, false)| <= w
    ensures ScanBus(BusText(s), prev, w, wf) == ScanDev(DevText(s), prev.(bus := s.bus), w, wf)
  {
    assert BusText(s)[1..] == HexField(s.bus, 2, false) + DevText(s);
    ScanField(s.bus, 2, DevText(s), 16, w);
  }

  lemma ScanDomainText(s: Slot, prev: Slot, w: nat, wf: nat)
    requires s.domain < U32
    ensures ScanWidths(PrintName(s), prev, w, wf) == ScanBus(BusText(s), prev.(domain := s.domain), w, wf)
  {
    NameInParts(s);
    ScanField(s.domain, 4, BusText(s), 16, |PrintName(s)|);
  }

  /** Parsing with wide enough fields undoes printing. */
  lemma WideRoundTrip(s: Slot, prev: Slot, hexWidth: nat, funcWidth: nat)
    requires Is32Bit(s)
    requires |HexField(s.bus, 2, false)| <= hexWidth && |HexField(s.dev, 2, false)| <= hexWidth
    requires |Digits(s.func, 10, false)| <= funcWidth
    ensures ScanWidths(PrintName(s), prev, hexWidth, funcWidth) == s
  {
    ScanDomainText(s, prev, hexWidth, funcWidth);
    ScanBusText(s, prev.(domain := s.domain), hexWidth, funcWidth);
    ScanDevText(s, prev.(domain := s.domain, bus := s.bus), hexWidth, funcWidth);
    ScanFuncText(s, prev.(domain := s.domain, bus := s.bus, dev := s.dev), funcWidth);
  }

  lemma CutFuncText(s: Slot, prev: Slot)
    requires s.func > 9
    ensures ScanFunc(FuncText(s), prev, 1) != s
  {
    DecimalLimits(s.func);
    var f := Digits(s.func, 10, false);
    assert FuncText(s)[1..] == f == f + [];
    CutField(s.func, 0, [], 10, 1);
  }

  lemma CutDevText(s: Slot, prev: Slot)
    requires s.dev > 0xFF
    ensures ScanDev(DevText(s), prev, 2, 1) != s
  {
    HexDigitLimits(s.dev, false);
    assert DevText(s)[1..] == HexField(s.dev, 2, false) + FuncText(s);
    CutField(s.dev, 2, FuncText(s), 16, 2);
  }

  lemma CutBusText(s: Slot, prev: Slot)
    requires s.bus > 0xFF
    ensures ScanBus(BusText(s), prev, 2, 1) != s
  {
    HexDigitLimits(s.bus, false);
    assert BusText(s)[1..] == HexField(s.bus, 2, false) + DevText(s);
    CutField(s.bus, 2, DevText(s), 16, 2);
  }

  /** When a field is too wide, the scan stores a smaller number in its place. */
  lemma NarrowScanLoses(s: Slot, prev: Slot)
    requires Is32Bit(s) && !Scannable(s)
    ensures ScanName(PrintName(s), prev) != s
  {
    HexDigitLimits(s.bus, false);
    HexDigitLimits(s.dev, false);
    ScanDomainText(s, prev, 2, 1);
    var p1 := prev.(domain := s.domain);
    if s.bus > 0xFF {
      CutBusText(s, p1);
    } else {
      ScanBusText(s, p1, 2, 1);
      var p2 := p1.(bus := s.bus);
      if s.dev > 0xFF {
        CutDevText(s, p2);
      } else {
        ScanDevText(s, p2, 2, 1);
        CutFuncText(s, p2.(dev := s.dev));
      }
    }
  }

  /** The parser undoes the printer exactly for the slots its widths can hold. */
  lemma NameRoundTrip(s: Slot, prev: Slot)
    requires Is32Bit(s)
    ensures ScanName(PrintName(s), prev) == s <==> Scannable(s)
  {
    if Scannable(s) {
      HexDigitLimits(s.bus, false);
      HexDigitLimits(s.dev, false);
      DecimalLimits(s.func);
      WideRoundTrip(s, prev, 2, 1);
    } else {
      NarrowScanLoses(s, prev);
    }
  }

  /** Different 32-bit slots print to different names, even those the parser cannot read back. */
  lemma NamesInjective(s: Slot, t: Slot)
    requires Is32Bit(s) && Is32Bit(t)
    requires PrintName(s) == PrintName(t)
    ensures s == t
  {
    FitsReferenceWidths(s);
    FitsReferenceWidths(t);
    WideRoundTrip(s, s, 8, 10);
    WideRoundTrip(t, s, 8, 10);
  }

  lemma FitsReferenceWidths(s: Slot)
    requires Is32Bit(s)
    ensures |DomainText(s.domain)| <= 8
    ensures |HexField(s.bus, 2, false)| <= 8 && |HexField(s.dev, 2, false)| <= 8 && |Digits(s.func, 10, false)| <= 10
  {
    HexDigitLimits(s.domain, false);
    HexDigitLimits(s.bus, false);
    HexDigitLimits(s.dev, false);
    DecimalLimits(s.func);
  }

  /** Neither path is ever cut, and each names one slot only. */
  lemma PathsInjective(s: Slot, t: Slot)
    requires Is32Bit(s) && Is32Bit(t)
    ensures SlinkPath(s) == SYS_BUS_PCIDEVS_PATH + "/" + PrintName(s)
    ensures ConfigPath(s) == SlinkPath(s) + "/config"
    ensures SlinkPath(s) == SlinkPath(t) <==> s == t
    ensures ConfigPath(s) == ConfigPath(t) <==> s == t
  {
    FitsReferenceWidths(s);
    FitsReferenceWidths(t);
    var dir := SYS_BUS_PCIDEVS_PATH + "/";
    assert |SYS_BUS_PCIDEVS_PATH| == 20;
    var ps, pt := PrintName(s), PrintName(t);
    assert |ps| <= 37 && |pt| <= 37;
    assert dir + ps + "/config" == SYS_BUS_PCIDEVS_PATH + "/" + ps + "/config";
    assert (dir + ps)[|dir|..] == ps && (dir + pt)[|dir|..] == pt;
    if ConfigPath(s) == ConfigPath(t) {
      SuffixCancel(dir + ps, "/config", dir + pt, "/config");
    }
    if ps == pt {
      NamesInjective(s, t);
    }
  }

  // ---------------------------------------------------------------- the names, piece by piece

  /** `t` is what the format writes for `n` into a field of at least `w` digits. */
  ghost predicate Writes(t: string, n: nat, base: nat, w: nat, upper: bool)
  {
    Shaped(t, base, w, upper) && Value(t, base) == n
  }

  /** `DDDD:BB:DD.F`, with its marks at `a`, `b` and `c`. */
  ghost predicate SpellsName(t: string, a: nat, b: nat, c: nat, s: Slot)
  {
    && a < b < c < |t| && t[a] == ':' && t[b] == ':' && t[c] == '.'
    && Writes(t[..a], s.domain, 16, 4, false)
    && Writes(t[a + 1..b], s.bus, 16, 2, false)
    && Writes(t[b + 1..c], s.dev, 16, 2, false)
    && Writes(t[c + 1..], s.func, 10, 1, false)
  }

  function FourParts(d: string, b: string, v: string, f: string): string
  {
    d + ":" + b + ":" + v + "." + f
  }

  lemma PartsOf(d: string, b: string, v: string, f: string)
    ensures var t, i, j, k := FourParts(d, b, v, f), |d|, |d| + 1 + |b|, |d| + 2 + |b| + |v|;
            && i < j < k < |t| + 1 && k < |t| && t[i] == ':' && t[j] == ':' && t[k] == '.'
            && t[..i] == d && t[i + 1..j] == b && t[j + 1..k] == v && t[k + 1..] == f
  {
  }

  lemma FromParts(t: string, i: nat, j: nat, k: nat)
    requires i < j < k < |t| && t[i] == ':' && t[j] == ':' && t[k] == '.'
    ensures t == FourParts(t[..i], t[i + 1..j], t[j + 1..k], t[k + 1..])
  {
  }

  lemma NameIsSpelled(d: string, b: string, v: string, f: string, s: Slot)
    requires Writes(d, s.domain, 16, 4, false) && Writes(b, s.bus, 16, 2, false)
    requires Writes(v, s.dev, 16, 2, false) && Writes(f, s.func, 10, 1, false)
    ensures SpellsName(FourParts(d, b, v, f), |d|, |d| + 1 + |b|, |d| + 2 + |b| + |v|, s)
  {
    PartsOf(d, b, v, f);
  }

  lemma PrintNameIs(s: Slot)
    ensures PrintName(s) == FourParts(HexField(s.domain, 4, false), HexField(s.bus, 2, false),
                                      HexField(s.dev, 2, false), Pad(Digits(s.func, 10, false), 1))
  {
    DomainFormatsAgree(s.domain);
  }

  lemma SpelledIsName(t: string, a: nat, b: nat, c: nat, s: Slot)
    requires SpellsName(t, a, b, c, s)
    ensures t == PrintName(s)
  {
    FromParts(t, a, b, c);
    FieldExactly(t[..a], s.domain, 16, 4, false);
    FieldExactly(t[a + 1..b], s.bus, 16, 2, false);
    FieldExactly(t[b + 1..c], s.dev, 16, 2, false);
    FieldExactly(t[c + 1..], s.func, 10, 1, false);
    PrintNameIs(s);
  }

  /**
   The name of a slot is the one text made of its four numbers, in this order and with these marks: domain in at least
   four hexadecimal digits, bus and device in at least two, function in decimal, letters in lower case.
   */
  lemma NameExactly(t: string, s: Slot)
    ensures t == PrintName(s) <==> exists a: nat, b: nat, c: nat :: SpellsName(t, a, b, c, s)
  {
    var d, b, v, f := HexField(s.domain, 4, false), HexField(s.bus, 2, false), HexField(s.dev, 2, false),
                      Pad(Digits(s.func, 10, false), 1);
    PrintNameIs(s);
    FieldExactly(d, s.domain, 16, 4, false);
    FieldExactly(b, s.bus, 16, 2, false);
    FieldExactly(v, s.dev, 16, 2, false);
    FieldExactly(f, s.func, 10, 1, false);
    NameIsSpelled(d, b, v, f, s);
    if i: nat, j: nat, k: nat :| SpellsName(t, i, j, k, s) {
      SpelledIsName(t, i, j, k, s);
    }
  }

  // ---------------------------------------------------------------- the /dev name

  lemma SuffixCancel(x: string, y: string, x': string, y': string)
    requires x + y == x' + y' && |y| == |y'|
    ensures x == x' && y == y'
  {
    var s := x + y;
    assert |x| == |x'|;
    assert s[..|x|] == x && s[|x|..] == y && s[..|x|] == x' && s[|x|..] == y';
  }

  lemma EarlierMark(a: string, b: string, a': string, b': string, c: char)
    requires a + [c] + b == a' + [c] + b' && |a| < |a'|
    ensures c in a'
  {
    assert (a + [c] + b)[|a|] == c && (a' + [c] + b')[|a|] == a'[|a|];
  }

  lemma MarkCancel(a: string, b: string, a': string, b': string, c: char)
    requires c !in a && c !in a'
    requires a + [c] + b == a' + [c] + b'
    ensures a == a' && b == b'
  {
    if |a| < |a'| {
      EarlierMark(a, b, a', b', c);
    } else if |a'| < |a| {
      EarlierMark(a', b', a, b, c);
    }
    SuffixCancel(a + [c], b, a' + [c], b');
    SuffixCancel(a, [c], a', [c]);
  }

  lemma HexFieldInjective(m: nat, n: nat, w: nat)
    requires HexField(m, w, true) == HexField(n, w, true)
    ensures m == n
  {
    FieldValue(m, 16, w, true);
    FieldValue(n, 16, w, true);
  }

  lemma MiscdevWidths(deviceId: nat, s: Slot)
    requires deviceId <= 0xFFFF && s.domain < U32 && s.bus <= 0xFF && s.dev <= 0xFF && s.func <= 0xF
    ensures |HexField(deviceId, 2, true)| <= 4 && |HexField(s.domain, 2, true)| <= 8
    ensures |HexField(s.bus, 2, true)| == 2 && |HexField(s.dev, 2, true)| == 2 && |HexField(s.func, 1, true)| == 1
    ensures '_' !in HexField(deviceId, 2, true)
    ensures MiscdevName(deviceId, s) == MiscdevText(deviceId, s)
  {
    HexDigitLimits(deviceId, true);
    HexDigitLimits(s.domain, true);
    HexDigitLimits(s.bus, true);
    HexDigitLimits(s.dev, true);
    HexDigitLimits(s.func, true);
    FieldValue(deviceId, 16, 2, true);
    assert DigitValue('_') == None;
    assert |MiscdevText(deviceId, s)| == 6 + |HexField(deviceId, 2, true)| + 1 + |MiscdevTail(s)|;
  }

  /**
   No two devices share a `/dev` name, although the domain has no fixed width and nothing separates it from what
   follows; and the name is never cut at 32 bytes.
   */
  lemma MiscdevNamesInjective(id: nat, s: Slot, id': nat, s': Slot)
    requires id <= 0xFFFF && s.domain < U32 && s.bus <= 0xFF && s.dev <= 0xFF && s.func <= 0xF
    requires id' <= 0xFFFF && s'.domain < U32 && s'.bus <= 0xFF && s'.dev <= 0xFF && s'.func <= 0xF
    ensures |MiscdevText(id, s)| < DEV_NAME_MAX_SIZE
    ensures MiscdevName(id, s) == MiscdevName(id', s') <==> id == id' && s == s'
  {
    MiscdevWidths(id, s);
    MiscdevWidths(id', s');
    if MiscdevName(id, s) == MiscdevName(id', s') {
      MiscdevParts(id, s, id', s');
      HexFieldInjective(id, id', 2);
      TailInjective(s, s');
    }
  }

  /**
   `crono_<id>_<domain><bus><device><function>`, with the second `_` at `m`: the last five characters are bus, device
   and function, two, two and one, and the domain is what is between.
   */
  ghost predicate SpellsNode(t: string, m: nat, id: nat, s: Slot)
  {
    && 6 < m && m + 6 < |t| && t[..6] == "crono_" && t[m] == '_' && '_' !in t[6..m]
    && var n := |t|;
       && Shaped(t[6..m], 16, 2, true) && Value(t[6..m], 16) == id
       && Shaped(t[m + 1..n - 5], 16, 2, true) && Value(t[m + 1..n - 5], 16) == s.domain
       && Shaped(t[n - 5..n - 3], 16, 2, true) && Value(t[n - 5..n - 3], 16) == s.bus
       && Shaped(t[n - 3..n - 1], 16, 2, true) && Value(t[n - 3..n - 1], 16) == s.dev
       && Shaped(t[n - 1..], 16, 1, true) && Value(t[n - 1..], 16) == s.func
  }

  function NodeText(i: string, d: string, b: string, v: string, f: string): string
  {
    "crono_" + i + "_" + d + b + v + f
  }

  lemma NodeParts(i: string, d: string, b: string, v: string, f: string)
    requires |b| == 2 && |v| == 2 && |f| == 1
    ensures var t, m := NodeText(i, d, b, v, f), 6 + |i|;
            var n := |t|;
            && n == m + 1 + |d| + 5 && t[..6] == "crono_" && t[m] == '_' && t[6..m] == i
            && t[m + 1..n - 5] == d && t[n - 5..n - 3] == b && t[n - 3..n - 1] == v && t[n - 1..] == f
  {
  }

  lemma NodeFromParts(t: string, m: nat, n: nat)
    requires 6 < m && m + 6 < n == |t| && t[..6] == "crono_" && t[m] == '_'
    ensures t == NodeText(t[6..m], t[m + 1..n - 5], t[n - 5..n - 3], t[n - 3..n - 1], t[n - 1..])
  {
    assert t == t[..6] + t[6..m] + [t[m]] + t[m + 1..n - 5] + t[n - 5..n - 3] + t[n - 3..n - 1] + t[n - 1..];
  }

  lemma MiscdevTextIs(id: nat, s: Slot)
    ensures MiscdevText(id, s) ==
            NodeText(HexField(id, 2, true), HexField(s.domain, 2, true), HexField(s.bus, 2, true),
                     HexField(s.dev, 2, true), HexField(s.func, 1, true))
  {
  }

  lemma PartsSpellNode(i: string, d: string, b: string, v: string, f: string, id: nat, s: Slot)
    requires Writes(i, id, 16, 2, true) && '_' !in i && Writes(d, s.domain, 16, 2, true)
    requires Writes(b, s.bus, 16, 2, true) && Writes(v, s.dev, 16, 2, true) && Writes(f, s.func, 16, 1, true)
    requires |b| == 2 && |v| == 2 && |f| == 1
    ensures SpellsNode(NodeText(i, d, b, v, f), 6 + |i|, id, s)
  {
    NodeParts(i, d, b, v, f);
  }

  lemma NodeIsSpelled(id: nat, s: Slot)
    requires id <= 0xFFFF && s.domain < U32 && s.bus <= 0xFF && s.dev <= 0xFF && s.func <= 0xF
    ensures SpellsNode(MiscdevName(id, s), 6 + |HexField(id, 2, true)|, id, s)
  {
    MiscdevWidths(id, s);
    MiscdevTextIs(id, s);
    FieldExactly(HexField(id, 2, true), id, 16, 2, true);
    FieldExactly(HexField(s.domain, 2, true), s.domain, 16, 2, true);
    FieldExactly(HexField(s.bus, 2, true), s.bus, 16, 2, true);
    FieldExactly(HexField(s.dev, 2, true), s.dev, 16, 2, true);
    FieldExactly(HexField(s.func, 1, true), s.func, 16, 1, true);
    PartsSpellNode(HexField(id, 2, true), HexField(s.domain, 2, true), HexField(s.bus, 2, true),
                   HexField(s.dev, 2, true), HexField(s.func, 1, true), id, s);
  }

  lemma FieldsAreText(i: string, d: string, b: string, v: string, f: string, id: nat, s: Slot)
    requires Writes(i, id, 16, 2, true) && Writes(d, s.domain, 16, 2, true)
    requires Writes(b, s.bus, 16, 2, true) && Writes(v, s.dev, 16, 2, true) && Writes(f, s.func, 16, 1, true)
    ensures NodeText(i, d, b, v, f) == MiscdevText(id, s)
  {
    MiscdevTextIs(id, s);
    FieldExactly(i, id, 16, 2, true);
    FieldExactly(d, s.domain, 16, 2, true);
    FieldExactly(b, s.bus, 16, 2, true);
    FieldExactly(v, s.dev, 16, 2, true);
    FieldExactly(f, s.func, 16, 1, true);
  }

  lemma SpelledIsText(t: string, m: nat, id: nat, s: Slot)
    requires SpellsNode(t, m, id, s)
    ensures t == MiscdevText(id, s)
  {
    var n := |t|;
    NodeFromParts(t, m, n);
    FieldsAreText(t[6..m], t[m + 1..n - 5], t[n - 5..n - 3], t[n - 3..n - 1], t[n - 1..], id, s);
  }

  /** The `/dev` name of a device in range is the one text of that layout with its five numbers. */
  lemma MiscdevExactly(t: string, id: nat, s: Slot)
    requires id <= 0xFFFF && s.domain < U32 && s.bus <= 0xFF && s.dev <= 0xFF && s.func <= 0xF
    ensures t == MiscdevName(id, s) <==> exists m :: SpellsNode(t, m, id, s)
  {
    NodeIsSpelled(id, s);
    if m :| SpellsNode(t, m, id, s) {
      SpelledIsText(t, m, id, s);
      MiscdevWidths(id, s);
    }
  }

  lemma MiscdevParts(id: nat, s: Slot, id': nat, s': Slot)
    requires '_' !in HexField(id, 2, true) && '_' !in HexField(id', 2, true)
    requires MiscdevText(id, s) == MiscdevText(id', s')
    ensures HexField(id, 2, true) == HexField(id', 2, true) && MiscdevTail(s) == MiscdevTail(s')
  {
    var i, i', t, t' := HexField(id, 2, true), HexField(id', 2, true), MiscdevTail(s), MiscdevTail(s');
    PrefixCancel("crono_", i, t, i', t', '_');
    MarkCancel(i, t, i', t', '_');
  }

  lemma PrefixCancel(p: string, a: string, b: string, a': string, b': string, c: char)
    requires p + a + [c] + b == p + a' + [c] + b'
    ensures a + [c] + b == a' + [c] + b'
  {
    assert (p + a + [c] + b)[|p|..] == a + [c] + b;
    assert (p + a' + [c] + b')[|p|..] == a' + [c] + b';
  }

  lemma TailInjective(s: Slot, s': Slot)
    requires |HexField(s.bus, 2, true)| == |HexField(s'.bus, 2, true)|
    requires |HexField(s.dev, 2, true)| == |HexField(s'.dev, 2, true)|
    requires |HexField(s.func, 1, true)| == |HexField(s'.func, 1, true)|
    requires MiscdevTail(s) == MiscdevTail(s')
    ensures s == s'
  {
    var d, b, v, f := HexField(s.domain, 2, true), HexField(s.bus, 2, true), HexField(s.dev, 2, true),
                      HexField(s.func, 1, true);
    var d', b', v', f' := HexField(s'.domain, 2, true), HexField(s'.bus, 2, true), HexField(s'.dev, 2, true),
                          HexField(s'.func, 1, true);
    SuffixCancel(d + b + v, f, d' + b' + v', f');
    SuffixCancel(d + b, v, d' + b', v');
    SuffixCancel(d, b, d', b');
    HexFieldInjective(s.domain, s'.domain, 2);
    HexFieldInjective(s.bus, s'.bus, 2);
    HexFieldInjective(s.dev, s'.dev, 2);
    HexFieldInjective(s.func, s'.func, 1);
  }

  /** One more hexadecimal digit at the end. */
  lemma DigitsExtend(n: nat, d: nat, upper: bool)
    requires d < 16 && 16 * n + d >= 16
    ensures Digits(16 * n + d, 16, upper) == Digits(n, 16, upper) + [DigitChar(d, upper)]
  {
    assert (16 * n + d) / 16 == n && (16 * n + d) % 16 == d;
  }

  lemma PairText(y: nat, z: nat)
    requires y < 16 && z < 16
    ensures HexField(16 * y + z, 2, true) == [DigitChar(y, true), DigitChar(z, true)]
  {
    if y > 0 {
      DigitsExtend(y, z, true);
      assert Digits(y, 16, true) == [DigitChar(y, true)];
    } else {
      assert Digits(z, 16, true) == [DigitChar(z, true)] && Zeros(1) == [DigitChar(0, true)];
    }
  }

  lemma TripleText(x: nat, y: nat, z: nat)
    requires 0 < x < 16 && y < 16 && z < 16
    ensures HexField(16 * (16 * x + y) + z, 2, true) == [DigitChar(x, true)] + [DigitChar(y, true), DigitChar(z, true)]
  {
    DigitsExtend(16 * x + y, z, true);
    DigitsExtend(x, y, true);
    assert Digits(x, 16, true) == [DigitChar(x, true)];
  }

  lemma DomainGrows(d: nat, x: nat)
    requires d >= 0x10 && x < 16
    ensures HexField(16 * d + x, 2, true) == HexField(d, 2, true) + [DigitChar(x, true)]
  {
    DigitsExtend(d, x, true);
    HexDigitLimits(d, true);
  }

  lemma Regroup(d: string, c: string, b: string, v: string, f: string)
    ensures d + (c + b) + v + f == d + c + b + v + f
  {
    assert d + (c + b) == d + c + b;
  }

  /** The first digit of a bus moved to the domain. */
  lemma MovedDigit(s: Slot, t: Slot, x: nat, y: nat, z: nat)
    requires 0 < x < 16 && y < 16 && z < 16 && s.domain >= 0x10
    requires s.bus == 16 * (16 * x + y) + z && t == s.(domain := 16 * s.domain + x, bus := 16 * y + z)
    ensures MiscdevTail(s) == MiscdevTail(t)
  {
    PairText(y, z);
    TripleText(x, y, z);
    DomainGrows(s.domain, x);
    Regroup(HexField(s.domain, 2, true), [DigitChar(x, true)], [DigitChar(y, true), DigitChar(z, true)],
            HexField(s.dev, 2, true), HexField(s.func, 1, true));
  }

  /**
   The bus range matters: for every bus of three digits and every domain of two digits or more, moving the bus's first
   digit to the end of the domain gives a different slot with the same `/dev` name.
   */
  lemma WideBusesCollide(id: nat, s: Slot)
    requires 0x100 <= s.bus <= 0xFFF && 0x10 <= s.domain && 16 * s.domain + 15 < U32
    ensures var t := s.(domain := 16 * s.domain + s.bus / 0x100, bus := s.bus % 0x100);
            s != t && t.domain < U32 && t.bus <= 0xFF && MiscdevName(id, s) == MiscdevName(id, t)
  {
    var x, low := s.bus / 0x100, s.bus % 0x100;
    MovedDigit(s, s.(domain := 16 * s.domain + x, bus := low), x, low / 16, low % 16);
  }

  /**
   Whatever the entry is called, the numbers the scan itself stores fit the `/dev` name: a range kept in `prev`
   is kept in the result, so every slot the directory loops work with after a first well-formed name is in range.
   */
  lemma ScanStaysInRange(name: string, prev: Slot)
    requires Scannable(prev)
    ensures Scannable(ScanName(name, prev))
  {
    forall t: string, base: nat, w: nat | 2 <= base <= 16 && 0 < w <= 2 && ScanNumber(t, base, w).Some?
      ensures ScanNumber(t, base, w).value.0 < if w == 1 then base else 0x100
    {
      ScanBelow(t, base, w);
    }
  }

  // ---------------------------------------------------------------- what the scan leaves alone

  lemma DevSets(s: string, p: Slot, q: Slot)
    requires p.(dev := 0, func := 0) == q.(dev := 0, func := 0)
    ensures CompletesDev(s) ==> ScanDev(s, p, 2, 1) == ScanDev(s, q, 2, 1)
    ensures !CompletesDev(s) ==> ScanDev(s, p, 2, 1).func == p.func
  {
  }

  lemma BusSets(s: string, p: Slot, q: Slot)
    requires p.domain == q.domain
    ensures CompletesBus(s) ==> ScanBus(s, p, 2, 1) == ScanBus(s, q, 2, 1)
    ensures !CompletesBus(s) ==> ScanBus(s, p, 2, 1).func == p.func
  {
    var t := ScanLiteral(s, ':');
    if t.Some? && ScanNumber(t.value, 16, 2).Some? {
      var (bus, rest) := ScanNumber(t.value, 16, 2).value;
      DevSets(rest, p.(bus := bus), q.(bus := bus));
    }
  }

  /** A name that completes sets every variable; any other leaves the function as it was. */
  lemma ScanSets(name: string, p: Slot, q: Slot)
    ensures Completes(name) ==> ScanName(name, p) == ScanName(name, q)
    ensures !Completes(name) ==> ScanName(name, p).func == p.func
  {
    var d := ScanNumber(name, 16, |name|);
    if d.Some? {
      var (domain, rest) := d.value;
      BusSets(rest, p.(domain := domain), q.(domain := domain));
    }
  }

  /**
   The scan does not check how many conversions were made.  What it stores is independent of what the variables held
   exactly when the whole name matches the format.
   */
  lemma ScanIndependentExactly(name: string)
    ensures (forall p, q :: ScanName(name, p) == ScanName(name, q)) <==> Completes(name)
  {
    forall p, q | Completes(name)
      ensures ScanName(name, p) == ScanName(name, q)
    {
      ScanSets(name, p, q);
    }
    if !Completes(name) {
      var p, q := Slot(0, 0, 0, 0), Slot(0, 0, 0, 1);
      ScanSets(name, p, p);
      ScanSets(name, q, q);
      assert ScanName(name, p) != ScanName(name, q);
    }
  }

  /** A name with a leading digit sets the domain. */
  lemma LeadingDigitSetsDomain(name: string, p: Slot, q: Slot)
    requires !NoLeadingDigit(name)
    ensures ScanName(name, p).domain == ScanName(name, q).domain
  {
  }

  /** The scan leaves every variable as it was, whatever that is, exactly for names without a leading digit. */
  lemma ScansToNothingExactly(name: string)
    ensures (forall p :: ScanName(name, p) == p) <==> NoLeadingDigit(name)
  {
    if !NoLeadingDigit(name) {
      var p, q := Slot(0, 0, 0, 0), Slot(1, 0, 0, 0);
      LeadingDigitSetsDomain(name, p, q);
      assert ScanName(name, p) != p || ScanName(name, q) != q;
    }
  }

  /** The names sysfs gives to scannable slots complete. */
  lemma PrintedCompletes(s: Slot)
    requires Scannable(s)
    ensures Completes(PrintName(s))
  {
    forall p, q
      ensures ScanName(PrintName(s), p) == ScanName(PrintName(s), q)
    {
      NameRoundTrip(s, p);
      NameRoundTrip(s, q);
    }
    ScanIndependentExactly(PrintName(s));
  }
}
