/** Names of rotated log files: printing them, and reading the number and the compression back. */
module LogNames {

  import opened Common

  // What a rotated file's name says.
  datatype Slot = Slot(number: nat, gz: bool)

  // ---------------------------------------------------------------- decimal numerals

  predicate IsDigit(c: char) {
    '0' <= c <= '9'
  }

  function Digit(d: nat): char
    requires d < 10
  {
    (d + '0' as int) as char
  }

  function Itoa(n: nat): string {
    (if n < 10 then "" else Itoa(n / 10)) + [Digit(n % 10)]
  }

  predicate IsNumeral(s: string) {
    s != [] && AllDigits(s)
  }

  predicate AllDigits(s: string) {
    forall i :: 0 <= i < |s| ==> IsDigit(s[i])
  }

  function DigitValue(c: char): nat
    requires IsDigit(c)
  {
    c as int - '0' as int
  }

  function ValueOf(s: string): nat
    requires AllDigits(s)
  {
    if s == [] then 0 else ValueOf(s[..|s| - 1]) * 10 + DigitValue(s[|s| - 1])
  }

  // Decimal only, with an optional sign; leading zeros are accepted.
  function Atoi(s: string): Option<int> {
    var signed := s != [] && (s[0] == '+' || s[0] == '-');
    var digits := if signed then s[1..] else s;
    if !IsNumeral(digits) then None else
      var value: int := ValueOf(digits);
      Some(if signed && s[0] == '-' then -value else value)
  }

  lemma {:induction false} ItoaValue(n: nat)
    ensures IsNumeral(Itoa(n)) && ValueOf(Itoa(n)) == n
  {
    var s := Itoa(n);
    if n >= 10 {
      ItoaValue(n / 10);
      assert s[..|s| - 1] == Itoa(n / 10);
    } else {
      assert s[..|s| - 1] == "";
    }
    assert s[|s| - 1] == Digit(n % 10);
  }

  lemma {:induction false} LeadingZeroValue(s: string)
    requires AllDigits(s)
    ensures AllDigits("0" + s) && ValueOf("0" + s) == ValueOf(s)
  {
    var t := "0" + s;
    if s == [] {
      assert t[..|t| - 1] == [];
    } else {
      LeadingZeroValue(s[..|s| - 1]);
      assert t[..|t| - 1] == "0" + s[..|s| - 1];
    }
  }

  // ---------------------------------------------------------------- file names

  const GZ := ".gz"

  function Name(base: string, ext: string, slot: Slot): string {
    base + "." + Itoa(slot.number) + ext + Tail(slot.gz)
  }

  function ParseNumber(ext: string, suffix: string): Option<int> {
    Atoi(TrimSuffix(TrimSuffix(suffix, GZ), ext))
  }

  // How a directory entry is recognised as a rotated file.
  function Parse(base: string, ext: string, name: string): Option<Slot> {
    if !HasPrefix(name, base + ".") then None else
      match ParseNumber(ext, name[|base| + 1..])
      case None => None
      case Some(n) => if n > 0 then Some(Slot(n, HasSuffix(name, GZ))) else None
  }

  // Digits before a short extension cannot complete a ".gz".
  lemma NoStraySuffix(s: string, digits: string, ext: string)
    requires IsNumeral(digits) && !HasSuffix(ext, GZ)
    ensures !HasSuffix(s + digits + ext, GZ)
  {
    var t := s + digits + ext;
    if |ext| >= 3 {
      assert t[|t| - 3..] == ext[|ext| - 3..];
    } else {
      var d := |t| - |ext| - 1;
      assert t[d] == digits[|digits| - 1];
      SuffixChar(t, GZ, d);
    }
  }

  function Tail(gz: bool): string {
    if gz then GZ else ""
  }

  lemma TrimTail(digits: string, ext: string, gz: bool)
    requires !HasSuffix(ext, GZ) && IsNumeral(digits)
    ensures TrimSuffix(digits + ext + Tail(gz), GZ) == digits + ext
  {
    if gz {
      TrimAppended(digits + ext, GZ);
    } else {
      assert digits + ext + "" == digits + ext == "" + digits + ext;
      NoStraySuffix("", digits, ext);
    }
  }

  lemma AtoiNumeral(digits: string)
    requires IsNumeral(digits)
    ensures Atoi(digits) == Some(ValueOf(digits))
  {
    assert IsDigit(digits[0]);
  }

  lemma ParseNumeralNumber(ext: string, digits: string, gz: bool)
    requires !HasSuffix(ext, GZ) && IsNumeral(digits)
    ensures ParseNumber(ext, digits + ext + Tail(gz)) == Some(ValueOf(digits))
  {
    TrimTail(digits, ext, gz);
    TrimAppended(digits, ext);
    AtoiNumeral(digits);
  }

  lemma NumeralCompression(stem: string, ext: string, digits: string, gz: bool)
    requires !HasSuffix(ext, GZ) && IsNumeral(digits)
    ensures HasSuffix(stem + digits + ext + Tail(gz), GZ) == gz
  {
    if gz {
      TrimAppended(stem + digits + ext, GZ);
    } else {
      assert stem + digits + ext + "" == stem + digits + ext;
      NoStraySuffix(stem, digits, ext);
    }
  }

  lemma ParseAfterStem(base: string, ext: string, suffix: string, n: int)
    requires ParseNumber(ext, suffix) == Some(n) && n >= 1
    ensures Parse(base, ext, base + "." + suffix) == Some(Slot(n, HasSuffix(base + "." + suffix, GZ)))
  {
    var name := base + "." + suffix;
    assert name[|base| + 1..] == suffix;
    assert HasPrefix(name, base + ".");
  }

  lemma ParseNumeral(base: string, ext: string, digits: string, gz: bool)
    requires !HasSuffix(ext, GZ) && IsNumeral(digits) && ValueOf(digits) >= 1
    ensures Parse(base, ext, base + "." + digits + ext + Tail(gz)) == Some(Slot(ValueOf(digits), gz))
  {
    ParseNumeralNumber(ext, digits, gz);
    ParseAfterStem(base, ext, digits + ext + Tail(gz), ValueOf(digits));
    NumeralCompression(base + ".", ext, digits, gz);
    Regroup(base + ".", digits, ext, Tail(gz));
  }

  // A generated name is read back exactly, provided the extension does not end in ".gz".
  lemma ParseName(base: string, ext: string, slot: Slot)
    requires slot.number >= 1 && !HasSuffix(ext, GZ)
    ensures Parse(base, ext, Name(base, ext, slot)) == Some(slot)
  {
    ItoaValue(slot.number);
    ParseNumeral(base, ext, Itoa(slot.number), slot.gz);
  }

  // Which extensions are safe: with any other, an uncompressed name is not read back.
  lemma ParseNameIff(base: string, ext: string)
    ensures (forall slot: Slot :: slot.number >= 1 ==> Parse(base, ext, Name(base, ext, slot)) == Some(slot))
       <==> !HasSuffix(ext, GZ)
  {
    if HasSuffix(ext, GZ) {
      var slot := Slot(1, false);
      var name := Name(base, ext, slot);
      assert name[|name| - 3..] == ext[|ext| - 3..];
      assert Parse(base, ext, name) != Some(slot);
    } else {
      forall slot: Slot | slot.number >= 1
        ensures Parse(base, ext, Name(base, ext, slot)) == Some(slot)
      {
        ParseName(base, ext, slot);
      }
    }
  }

  lemma NamesDiffer(base: string, ext: string, a: Slot, b: Slot)
    requires !HasSuffix(ext, GZ) && a.number >= 1 && b.number >= 1
    requires Name(base, ext, a) == Name(base, ext, b)
    ensures a == b
  {
    ParseName(base, ext, a);
    ParseName(base, ext, b);
  }

  // ---------------------------------------------------------------- the converse

  // A name with the extension, whose number starts with a digit other than zero.
  predicate Plain(base: string, ext: string, name: string) {
    && |name| > |base| + 1
    && HasSuffix(TrimSuffix(name[|base| + 1..], GZ), ext)
    && '1' <= name[|base| + 1] <= '9'
  }

  lemma {:induction false} ValuePositive(s: string)
    requires IsNumeral(s) && s[0] != '0'
    ensures ValueOf(s) >= 1
  {
    if |s| > 1 {
      ValuePositive(s[..|s| - 1]);
    } else {
      assert s[..|s| - 1] == [];
    }
  }

  // A numeral without a leading zero is the one that is printed.
  lemma {:induction false} ValueItoa(s: string)
    requires IsNumeral(s) && s[0] != '0'
    ensures Itoa(ValueOf(s)) == s
  {
    var rest, last := s[..|s| - 1], s[|s| - 1];
    assert s == rest + [last] && Digit(DigitValue(last)) == last;
    if rest == [] {
      assert ValueOf(s) == DigitValue(last);
    } else {
      ValuePositive(rest);
      ValueItoa(rest);
      assert ValueOf(s) / 10 == ValueOf(rest) && ValueOf(s) % 10 == DigitValue(last);
    }
  }

  lemma {:induction false} FirstDigit(n: nat)
    requires n >= 1
    ensures IsNumeral(Itoa(n)) && Itoa(n)[0] != '0'
  {
    ItoaValue(n);
    if n >= 10 {
      FirstDigit(n / 10);
      assert Itoa(n)[0] == Itoa(n / 10)[0];
    }
  }

  lemma SplitSuffix(s: string, suffix: string)
    requires HasSuffix(s, suffix)
    ensures s == TrimSuffix(s, suffix) + suffix
  {
  }

  lemma GeneratedIsPlain(base: string, ext: string, slot: Slot)
    requires !HasSuffix(ext, GZ) && slot.number >= 1
    ensures Plain(base, ext, Name(base, ext, slot))
  {
    var name, digits := Name(base, ext, slot), Itoa(slot.number);
    FirstDigit(slot.number);
    Regroup(base + ".", digits, ext, Tail(slot.gz));
    assert name[|base| + 1..] == digits + ext + Tail(slot.gz);
    assert name[|base| + 1] == digits[0] && IsDigit(digits[0]);
    TrimTail(digits, ext, slot.gz);
    TrimAppended(digits, ext);
  }

  // What follows the stem of a plain name that is read.
  lemma PlainSuffix(ext: string, suffix: string, n: int)
    requires ParseNumber(ext, suffix) == Some(n) && n >= 1
    requires suffix != [] && HasSuffix(TrimSuffix(suffix, GZ), ext) && '1' <= suffix[0] <= '9'
    ensures suffix == Itoa(n) + ext + Tail(HasSuffix(suffix, GZ))
  {
    var rest := TrimSuffix(suffix, GZ);
    var digits := TrimSuffix(rest, ext);
    SplitSuffix(rest, ext);
    assert digits != [] && digits[0] == suffix[0];
    ValueItoa(digits);
    assert rest == Itoa(n) + ext;
    if HasSuffix(suffix, GZ) {
      SplitSuffix(suffix, GZ);
    } else {
      assert rest + "" == suffix;
    }
  }

  lemma SuffixOfSuffix(stem: string, suffix: string)
    requires suffix != [] && IsDigit(suffix[0])
    ensures HasSuffix(stem + suffix, GZ) == HasSuffix(suffix, GZ)
  {
    var s := stem + suffix;
    if |suffix| >= 3 {
      assert s[|s| - 3..] == suffix[|suffix| - 3..];
    } else {
      SuffixChar(s, GZ, |stem|);
      assert s[|stem|] == suffix[0];
    }
  }

  // Exactly which of the names that are read are names that rotation gives. Among the others are
  // names without the extension, with a sign, and with leading zeros.
  lemma ReadBackIff(base: string, ext: string, name: string)
    requires !HasSuffix(ext, GZ) && Parse(base, ext, name).Some?
    ensures name == Name(base, ext, Parse(base, ext, name).value) <==> Plain(base, ext, name)
  {
    var slot := Parse(base, ext, name).value;
    if Plain(base, ext, name) {
      var suffix := name[|base| + 1..];
      assert name == base + "." + suffix && suffix[0] == name[|base| + 1];
      PlainSuffix(ext, suffix, slot.number);
      SuffixOfSuffix(base + ".", suffix);
      Regroup(base + ".", Itoa(slot.number), ext, Tail(slot.gz));
    } else if name == Name(base, ext, slot) {
      GeneratedIsPlain(base, ext, slot);
    }
  }

  // So two files can share a slot: a sign, and a missing extension, are read as well.
  lemma SignedNumber(sign: string, ext: string, digits: string)
    requires |sign| == 1 && sign[0] == '+' && !HasSuffix(ext, GZ) && IsNumeral(digits)
    ensures ParseNumber(ext, sign + digits + ext) == Some(ValueOf(digits))
    ensures !HasSuffix(sign + digits + ext, GZ)
  {
    NoStraySuffix(sign, digits, ext);
    TrimAppended(sign + digits, ext);
    assert (sign + digits)[1..] == digits;
  }

  lemma SignedSuffix(stem: string, suffix: string)
    requires suffix != [] && suffix[0] == '+'
    ensures HasSuffix(stem + suffix, GZ) == HasSuffix(suffix, GZ)
  {
    var s := stem + suffix;
    if |suffix| >= 3 {
      assert s[|s| - 3..] == suffix[|suffix| - 3..];
    } else {
      SuffixChar(s, GZ, |stem|);
      assert s[|stem|] == suffix[0];
    }
  }

  lemma SignedRead(base: string, ext: string, suffix: string, n: nat)
    requires suffix != [] && suffix[0] == '+' && !HasSuffix(suffix, GZ)
    requires ParseNumber(ext, suffix) == Some(n) && n >= 1
    ensures Parse(base, ext, base + "." + suffix) == Some(Slot(n, false))
  {
    ParseAfterStem(base, ext, suffix, n);
    SignedSuffix(base + ".", suffix);
  }

  lemma SignIsRead(base: string, sign: string, ext: string, n: nat)
    requires |sign| == 1 && sign[0] == '+' && !HasSuffix(ext, GZ) && n >= 1
    ensures Parse(base, ext, base + "." + (sign + Itoa(n) + ext)) == Some(Slot(n, false))
  {
    var digits := Itoa(n);
    ItoaValue(n);
    SignedNumber(sign, ext, digits);
    SignedRead(base, ext, sign + digits + ext, n);
  }

  lemma NoDot(digits: string, ext: string)
    requires IsNumeral(digits) && ext != "" && ext[0] == '.'
    ensures !HasSuffix(digits, ext)
  {
    if |ext| <= |digits| {
      var k := |digits| - |ext|;
      assert IsDigit(digits[k]);
      SuffixChar(digits, ext, k);
    }
  }

  lemma BareNumberIsRead(base: string, ext: string, n: nat)
    requires !HasSuffix(ext, GZ) && (ext != "" ==> ext[0] == '.') && n >= 1
    ensures Parse(base, ext, base + "." + Itoa(n)) == Some(Slot(n, false))
  {
    ItoaValue(n);
    var digits := Itoa(n);
    assert digits + "" == digits && "" + digits == digits;
    NoStraySuffix("", digits, "");
    if ext != "" {
      NoDot(digits, ext);
    }
    assert TrimSuffix(digits, ext) == digits;
    AtoiNumeral(digits);
    ParseAfterStem(base, ext, digits, n);
    NoStraySuffix(base + ".", digits, "");
    assert base + "." + digits + "" == base + "." + digits;
  }

  // Another family: a leading zero before any number that is generated.
  lemma LeadingZeroIsRead(base: string, ext: string, n: nat)
    requires !HasSuffix(ext, GZ) && n >= 1
    ensures Parse(base, ext, base + "." + ("0" + Itoa(n)) + ext + Tail(false)) == Some(Slot(n, false))
  {
    ItoaValue(n);
    LeadingZeroValue(Itoa(n));
    ParseNumeral(base, ext, "0" + Itoa(n), false);
  }
}
