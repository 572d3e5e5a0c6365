/** The text primitives of the parameter tree: decimal numbers as snprintf prints and strtol
    reads them, and the delimiter searches of string_utils.c. A string stands for the characters
    before its terminating null; None for a null pointer. */
module ParamText {
  import opened Options

  // ---------------------------------------------------------------- decimal numbers

  function DigitChar(d: nat): (c: char)
    requires d < 10
    ensures IsDigit(c) && DigitValue(c) == d
  {
    "0123456789"[d]
  }

  predicate IsDigit(c: char) {
    '0' <= c <= '9'
  }

  function DigitValue(c: char): (d: nat)
    requires IsDigit(c)
    ensures d < 10
  {
    c as int - '0' as int
  }

  function Digits(n: nat): (s: string)
    ensures s != [] && forall i :: 0 <= i < |s| ==> IsDigit(s[i])
  {
    if n < 10 then [DigitChar(n)] else Digits(n / 10) + [DigitChar(n % 10)]
  }

  /** The decimal representation of an integer. */
  function Decimal(v: int): (s: string)
    ensures s != [] && forall i :: 0 <= i < |s| ==> IsDigit(s[i]) || s[i] == '-'
  {
    if v < 0 then "-" + Digits(-v) else Digits(v)
  }

  function ReadDigits(s: string, acc: nat): nat
    decreases |s|
  {
    if s == [] || !IsDigit(s[0]) then acc
    else ReadDigits(s[1..], acc * 10 + DigitValue(s[0]))
  }

  predicate IsSpace(c: char) {
    c in " \t\n\r\U{0B}\U{0C}"
  }

  /** strtol in base ten, on inputs short enough not to overflow. */
  function StrToL(s: string): int
    decreases |s|
  {
    if s == [] then 0
    else if IsSpace(s[0]) then StrToL(s[1..])
    else if s[0] == '-' then 0 - ReadDigits(s[1..], 0)
    else if s[0] == '+' then ReadDigits(s[1..], 0)
    else ReadDigits(s, 0)
  }

  lemma {:induction false} ReadDigitsAppend(s: string, c: char, acc: nat)
    requires IsDigit(c) && forall i :: 0 <= i < |s| ==> IsDigit(s[i])
    ensures ReadDigits(s + [c], acc) == ReadDigits(s, acc) * 10 + DigitValue(c)
    decreases |s|
  {
    if s == [] {
      assert ([c])[1..] == [];
      assert s + [c] == [c];
      assert ReadDigits([], acc * 10 + DigitValue(c)) == acc * 10 + DigitValue(c);
    } else {
      assert (s + [c])[1..] == s[1..] + [c];
      ReadDigitsAppend(s[1..], c, acc * 10 + DigitValue(s[0]));
    }
  }

  lemma {:induction false} ReadDigitsOfDigits(n: nat)
    ensures ReadDigits(Digits(n), 0) == n
  {
    if n < 10 {
      assert [DigitChar(n)][1..] == [];
      assert ReadDigits([], DigitValue(DigitChar(n))) == n;
    } else {
      ReadDigitsOfDigits(n / 10);
      ReadDigitsAppend(Digits(n / 10), DigitChar(n % 10), 0);
    }
  }

  /** What strtol reads from a printed number is the number. */
  lemma StrToLOfDecimal(v: int)
    ensures StrToL(Decimal(v)) == v
  {
    hide Digits, ReadDigits;
    if v < 0 {
      assert Decimal(v)[1..] == Digits(-v);
      ReadDigitsOfDigits(-v);
    } else {
      ReadDigitsOfDigits(v);
    }
  }

  lemma {:induction false} ReadDigitsStops(s: string, rest: string, acc: nat)
    requires forall i :: 0 <= i < |s| ==> IsDigit(s[i])
    requires rest == "" || !IsDigit(rest[0])
    ensures ReadDigits(s + rest, acc) == ReadDigits(s, acc)
    decreases |s|
  {
    if s == "" {
      assert s + rest == rest;
    } else {
      assert (s + rest)[1..] == s[1..] + rest;
      ReadDigitsStops(s[1..], rest, acc * 10 + DigitValue(s[0]));
    }
  }

  lemma {:induction false} BlanksSkipped(blanks: string, s: string)
    requires forall i :: 0 <= i < |blanks| ==> IsSpace(blanks[i])
    ensures StrToL(blanks + s) == StrToL(s)
    decreases |blanks|
  {
    if blanks == "" {
      assert blanks + s == s;
    } else {
      assert (blanks + s)[1..] == blanks[1..] + s;
      BlanksSkipped(blanks[1..], s);
    }
  }

  /** strtol reads one number, with a sign or without, after blanks and up to what is no digit. */
  lemma StrToLReads(blanks: string, sign: string, n: nat, rest: string)
    requires forall i :: 0 <= i < |blanks| ==> IsSpace(blanks[i])
    requires sign in ["", "+", "-"] && (rest == "" || !IsDigit(rest[0]))
    ensures StrToL(blanks + (sign + (Digits(n) + rest))) == if sign == "-" then 0 - n else n
  {
    hide StrToL, ReadDigits, IsSpace;
    var s := Digits(n) + rest;
    FirstDigit(Digits(n), rest);
    BlanksSkipped(blanks, sign + s);
    Signed(sign, s);
    ReadDigitsOfDigits(n);
    ReadDigitsStops(Digits(n), rest, 0);
  }

  lemma FirstDigit(s: string, rest: string)
    requires s != "" && forall i :: 0 <= i < |s| ==> IsDigit(s[i])
    ensures s + rest != "" && IsDigit((s + rest)[0])
  {
  }

  /** And a text without a number as zero. */
  lemma StrToLNothing(blanks: string, rest: string)
    requires forall i :: 0 <= i < |blanks| ==> IsSpace(blanks[i])
    requires rest == "" || (rest[0] !in "+-" && !IsSpace(rest[0]) && !IsDigit(rest[0]))
    ensures StrToL(blanks + rest) == 0
  {
    hide IsSpace;
    BlanksSkipped(blanks, rest);
  }

  lemma Signed(sign: string, s: string)
    requires s != "" && IsDigit(s[0]) && sign in ["", "+", "-"]
    ensures StrToL(sign + s) == if sign == "-" then 0 - ReadDigits(s, 0) else ReadDigits(s, 0)
  {
    hide ReadDigits;
    assert sign == "" ==> sign + s == s;
    assert sign != "" ==> (sign + s)[0] == sign[0] && (sign + s)[1..] == s;
  }

  // ---------------------------------------------------------------- searching

  /** strchr: the index of the first occurrence. */
  function StrChr(s: string, c: char): (i: Option<nat>)
    ensures i.None? ==> c !in s
    ensures i.Some? ==> i.value < |s| && s[i.value] == c && c !in s[..i.value]
  {
    if s == [] then None
    else if s[0] == c then Some(0)
    else match StrChr(s[1..], c)
         case None => None
         case Some(k) =>
           assert s[..k + 1] == [s[0]] + s[1..][..k];
           Some(k + 1)
  }

  lemma {:induction false} StrChrAt(s: string, c: char, k: nat)
    requires k < |s| && s[k] == c && c !in s[..k]
    ensures StrChr(s, c) == Some(k)
    decreases |s|
  {
    assert forall i, j :: 0 <= i < j <= |s| ==> s[..j][i] == s[i];
  }

  /** A prefix without the character only shifts where it is found. */
  lemma {:induction false} StrChrPast(a: string, s: string, c: char)
    requires c !in a
    ensures StrChr(a + s, c) == match StrChr(s, c) case None => None case Some(k) => Some(|a| + k)
    decreases |a|
  {
    if a == [] {
      assert a + s == s;
    } else {
      assert (a + s)[1..] == a[1..] + s;
      StrChrPast(a[1..], s, c);
    }
  }

  lemma StrChrHead(c: char, s: string)
    ensures StrChr([c] + s, c) == Some(0)
  {
  }

  lemma StrChrMark(a: string, c: char, b: string)
    requires c !in a
    ensures StrChr(a + [c] + b, c) == Some(|a|)
  {
    assert a + [c] + b == a + ([c] + b);
    StrChrPast(a, [c] + b, c);
    StrChrHead(c, b);
  }

  lemma StrChrAbsent(s: string, c: char)
    requires c !in s
    ensures StrChr(s, c) == None
  {
  }

  /** FcString_GetStringBetween: what stands between the first start and the first end mark. */
  function StringBetween(room: nat, text: string, start: char, end: char): Option<string> {
    match (StrChr(text, start), StrChr(text, end))
    case (Some(front), Some(back)) =>
      if front >= back || back - front + 1 > room then None
      else Some(text[front + 1..back])
    case _ => None
  }

  lemma BetweenMarks(room: nat, text: string, start: char, end: char, i: nat, j: nat)
    requires StrChr(text, start) == Some(i) && StrChr(text, end) == Some(j) && i < j < |text|
    ensures StringBetween(room, text, start, end) == if j - i + 1 <= room then Some(text[i + 1..j]) else None
  {
    hide StrChr;
  }

  /** FcString_GetNameString: up to the first '<', '[' or '/', or the whole module. */
  function NameString(room: nat, text: string): Option<string> {
    match FirstDelimiter(text)
    case Some(k) => if k + 1 > room then WholeName(room, text) else Some(text[..k])
    case None => WholeName(room, text)
  }

  function WholeName(room: nat, text: string): Option<string> {
    if |text| + 1 > room then None else Some(text)
  }

  function Earlier(a: Option<nat>, b: Option<nat>): Option<nat> {
    match (a, b)
    case (None, _) => b
    case (Some(i), Some(j)) => if j < i then b else a
    case (Some(_), None) => a
  }

  function FirstDelimiter(text: string): Option<nat> {
    Earlier(Earlier(StrChr(text, '<'), StrChr(text, '[')), StrChr(text, '/'))
  }

  /** FcString_GetModuleString: up to the first '/', and the rest after it. */
  function ModuleString(room: nat, text: string): Option<(string, string)> {
    match StrChr(text, '/')
    case None => None
    case Some(k) => if k + 1 > room then None else Some((text[..k], text[k + 1..]))
  }

  /** A module without a separator, followed by one, is cut off whole. */
  lemma ModuleCut(room: nat, text: string, rest: string)
    requires '/' !in text && |text| + 1 <= room
    ensures ModuleString(room, text + "/" + rest) == Some((text, rest))
  {
    hide StrChr;
    var s := text + "/" + rest;
    StrChrMark(text, '/', rest);
    assert s[..|text|] == text && s[|text| + 1..] == rest;
  }

  /** A text closed by brackets is found between them if it fits. */
  lemma BetweenCut(room: nat, before: string, text: string, start: char, end: char)
    requires start !in before && end !in before && end !in text && start != end
    ensures StringBetween(room, before + [start] + text + [end], start, end)
         == if |text| + 2 <= room then Some(text) else None
  {
    hide StrChr;
    var s := before + [start] + text + [end];
    assert s == before + [start] + (text + [end]);
    StrChrMark(before, start, text + [end]);
    var a := before + [start] + text;
    assert end !in a;
    assert s == a + [end] + [];
    StrChrMark(a, end, []);
    assert s[|before| + 1..|before| + 1 + |text|] == text;
  }
}
