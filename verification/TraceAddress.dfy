/** The text form of a trace address: written by the explorer as a Python list with
    its brackets turned into braces, and parsed by `parse_trace_address`. */
module TraceAddress {
  import opened Common
  import opened TraceRows

  // --- Writing ---

  function DigitChar(d: nat): char
    requires d < 10
  {
    "0123456789"[d]
  }

  /** `str(n)`. */
  function Decimal(n: nat): string {
    if n < 10 then [DigitChar(n)] else Decimal(n / 10) + [DigitChar(n % 10)]
  }

  function Joined(p: Path): string {
    if p == [] then ""
    else if |p| == 1 then Decimal(p[0])
    else Decimal(p[0]) + ", " + Joined(p[1..])
  }

  /** `str(path)`. */
  function ListText(p: Path): string {
    "[" + Joined(p) + "]"
  }

  function Replace(s: string, a: char, b: char): string {
    seq(|s|, i requires 0 <= i < |s| => if s[i] == a then b else s[i])
  }

  function AddressText(p: Path): string {
    Replace(Replace(ListText(p), '[', '{'), ']', '}')
  }

  // --- Parsing ---

  predicate IsBrace(c: char) { c == '{' || c == '}' }

  predicate IsBlank(c: char) { c == ' ' }

  predicate IsDigit(c: char) { '0' <= c <= '9' }

  /** `s.strip(chars)`, for the characters that satisfy `drop`. */
  function Strip(s: string, drop: char -> bool): string {
    if s == [] then []
    else if drop(s[0]) then Strip(s[1..], drop)
    else if drop(s[|s| - 1]) then Strip(s[..|s| - 1], drop)
    else s
  }

  /** `s.split(",")`. */
  function Split(s: string): (r: seq<string>)
    ensures r != []
  {
    if s == [] then [""]
    else if s[0] == ',' then [""] + Split(s[1..])
    else var rest := Split(s[1..]); [[s[0]] + rest[0]] + rest[1..]
  }

  predicate AllDigits(s: string) { forall i :: 0 <= i < |s| ==> IsDigit(s[i]) }

  function DigitsValue(s: string): nat
    requires AllDigits(s)
  {
    if s == [] then 0
    else DigitsValue(s[..|s| - 1]) * 10 + (s[|s| - 1] as int - '0' as int)
  }

  /** `int(s)` on the texts an address can hold; None is the ValueError. */
  function ParseInt(s: string): Option<nat> {
    var t := Strip(s, IsBlank);
    if t != [] && AllDigits(t) then Some(DigitsValue(t)) else None
  }

  function ParseAll(parts: seq<string>): Option<Path> {
    if parts == [] then Some([])
    else
      var first, rest := ParseInt(parts[0]), ParseAll(parts[1..]);
      if first.Some? && rest.Some? then Some([first.value] + rest.value) else None
  }

  function ParseTraceAddress(s: string): Option<Path> {
    if s == "{}" then Some([]) else ParseAll(Split(Strip(s, IsBrace)))
  }

  // --- Parsing inverts writing ---

  lemma DigitsAppend(s: string, d: nat)
    requires AllDigits(s) && d < 10
    ensures AllDigits(s + [DigitChar(d)])
    ensures DigitsValue(s + [DigitChar(d)]) == DigitsValue(s) * 10 + d
  {
    var t := s + [DigitChar(d)];
    assert t[..|t| - 1] == s;
  }

  lemma {:induction false} DecimalDigits(n: nat)
    ensures Decimal(n) != [] && AllDigits(Decimal(n)) && DigitsValue(Decimal(n)) == n
  {
    if n < 10 {
      assert Decimal(n)[..0] == "" && DigitsValue("") == 0;
    } else {
      DecimalDigits(n / 10);
      DigitsAppend(Decimal(n / 10), n % 10);
    }
  }

  lemma ParseIntOfDecimal(n: nat, blank: string)
    requires blank == "" || blank == " "
    ensures ParseInt(blank + Decimal(n)) == Some(n)
  {
    DecimalDigits(n);
    var s := blank + Decimal(n);
    if blank == " " {
      assert s[1..] == Decimal(n);
    } else {
      assert s == Decimal(n);
    }
    assert IsDigit(Decimal(n)[0]) && IsDigit(Decimal(n)[|Decimal(n)| - 1]);
    assert Strip(Decimal(n), IsBlank) == Decimal(n);
  }

  /** Splitting at the first comma. */
  lemma {:induction false} SplitFirst(a: string, rest: string)
    requires ',' !in a
    ensures Split(a) == [a]
    ensures Split(a + "," + rest) == [a] + Split(rest)
  {
    var s := a + "," + rest;
    if a == "" {
      assert s[1..] == rest;
    } else {
      SplitFirst(a[1..], rest);
      assert s[1..] == a[1..] + "," + rest;
      assert [a[0]] + a[1..] == a;
    }
  }

  /** The parts that splitting a written address at its commas gives. */
  function Parts(p: Path, blank: string): seq<string> {
    if p == [] then [] else [blank + Decimal(p[0])] + Parts(p[1..], " ")
  }

  lemma HasNoComma(n: nat, blank: string)
    requires blank == "" || blank == " "
    ensures ',' !in blank + Decimal(n)
  {
    DecimalDigits(n);
    var d := blank + Decimal(n);
    forall i | 0 <= i < |d| ensures d[i] != ',' {
      if i >= |blank| { assert IsDigit(Decimal(n)[i - |blank|]); }
    }
  }

  lemma JoinedStep(p: Path, blank: string)
    requires |p| > 1
    ensures blank + Joined(p) == (blank + Decimal(p[0])) + "," + (" " + Joined(p[1..]))
  {
    Regroup(blank, Decimal(p[0]), Joined(p[1..]));
  }

  lemma Regroup(a: string, b: string, c: string)
    ensures a + (b + ", " + c) == (a + b) + "," + (" " + c)
  {
    assert ", " == "," + " ";
  }

  lemma {:induction false} SplitJoined(p: Path, blank: string)
    requires p != [] && (blank == "" || blank == " ")
    ensures Split(blank + Joined(p)) == Parts(p, blank)
  {
    var d := blank + Decimal(p[0]);
    HasNoComma(p[0], blank);
    if |p| == 1 {
      SplitFirst(d, "");
      assert Parts(p, blank) == [d];
    } else {
      SplitFirst(d, " " + Joined(p[1..]));
      SplitJoined(p[1..], " ");
      JoinedStep(p, blank);
    }
  }

  lemma {:induction false} ParseParts(p: Path, blank: string)
    requires blank == "" || blank == " "
    ensures ParseAll(Parts(p, blank)) == Some(p)
  {
    if p != [] {
      ParseIntOfDecimal(p[0], blank);
      ParseParts(p[1..], " ");
      assert Parts(p, blank)[1..] == Parts(p[1..], " ");
      assert p == [p[0]] + p[1..];
    }
  }

  /** Addresses are made of digits, commas and blanks, and begin and end with a digit. */
  lemma {:induction false} JoinedHasNoBrackets(p: Path)
    requires p != []
    ensures var s := Joined(p);
      s != [] && IsDigit(s[0]) && IsDigit(s[|s| - 1]) &&
      forall i :: 0 <= i < |s| ==> IsDigit(s[i]) || s[i] == ',' || s[i] == ' '
  {
    DecimalDigits(p[0]);
    if |p| > 1 { JoinedHasNoBrackets(p[1..]); }
  }

  /** How the text looks. */
  lemma TextLooksLike()
    ensures AddressText([]) == "{}"
    ensures AddressText([7]) == "{7}"
    ensures AddressText([2, 0, 1]) == "{2, 0, 1}"
  {
    assert Joined([1]) == "1" && [2, 0, 1][1..] == [0, 1] && [0, 1][1..] == [1];
    assert Joined([0, 1]) == "0, 1";
    assert Joined([2, 0, 1]) == "2, 0, 1";
  }

  /** What the explorer writes for an address, the parser reads back. */
  lemma ParseInvertsText(p: Path)
    ensures ParseTraceAddress(AddressText(p)) == Some(p)
  {
    if p == [] {
      assert AddressText(p) == "{}";
    } else {
      var s := Joined(p);
      JoinedHasNoBrackets(p);
      assert AddressText(p) == "{" + s + "}";
      assert |AddressText(p)| > |"{}"|;
      assert ("{" + s + "}")[1..] == s + "}";
      assert (s + "}")[..|s|] == s;
      assert Strip(s, IsBrace) == s;
      assert Strip(s + "}", IsBrace) == Strip(s, IsBrace);
      SplitJoined(p, "");
      ParseParts(p, "");
      assert "" + s == s;
    }
  }
}
