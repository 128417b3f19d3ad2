/** Process ids travel and are stored as one comma-separated text. */
module ProcessIds {
  import opened Wrappers

  predicate IsDigit(c: char) { '0' <= c <= '9' }

  function DigitValue(c: char): (d: nat)
    requires IsDigit(c)
    ensures d < 10
  {
    c as int - 48
  }

  function Digit(d: nat): (c: char)
    requires d < 10
    ensures IsDigit(c) && DigitValue(c) == d
  {
    (d + 48) as char
  }

  /** `str(n)` of a non-negative number. */
  function Digits(n: nat): (s: string)
    ensures s != "" && forall i :: 0 <= i < |s| ==> IsDigit(s[i])
  {
    if n < 10 then [Digit(n)] else Digits(n / 10) + [Digit(n % 10)]
  }

  function Print(n: int): (s: string)
    ensures s != "" && ',' !in s
  {
    if n < 0 then "-" + Digits(-n) else Digits(n)
  }

  /** `",".join(...)` */
  function Join(ns: seq<int>): string {
    if ns == [] then ""
    else if |ns| == 1 then Print(ns[0])
    else Print(ns[0]) + "," + Join(ns[1..])
  }

  function ParseDigits(s: string): Option<nat> {
    if s == "" then None
    else
      var c := s[|s| - 1];
      if !IsDigit(c) then None
      else if |s| == 1 then Some(DigitValue(c))
      else match ParseDigits(s[..|s| - 1])
        case None => None
        case Some(n) => Some(10 * n + DigitValue(c))
  }

  /** `int(text)` for an optional sign and decimal digits. */
  function ParseInt(s: string): Option<int> {
    if s != "" && (s[0] == '-' || s[0] == '+') then
      match ParseDigits(s[1..])
      case None => None
      case Some(n) => Some((if s[0] == '-' then -1 else 1) * n)
    else ParseDigits(s)
  }

  /** `text.split(",")` */
  function Split(s: string): (parts: seq<string>)
    ensures parts != []
  {
    if s == "" then [""]
    else
      var rest := Split(s[1..]);
      if s[0] == ',' then [""] + rest else [[s[0]] + rest[0]] + rest[1..]
  }

  /** The validator: empty parts are skipped, anything else must be a number. */
  function ParseParts(parts: seq<string>): Result<seq<int>> {
    if parts == [] then Ok([])
    else if parts[0] == "" then ParseParts(parts[1..])
    else match ParseInt(parts[0])
      case None => Err("invalid literal")
      case Some(n) =>
        match ParseParts(parts[1..])
        case Err(e) => Err(e)
        case Ok(ns) => Ok([n] + ns)
  }

  function Parse(s: string): Result<seq<int>> { ParseParts(Split(s)) }

  /** The text is decimal: one digit per place, the last one the units. */
  lemma PlacesAreDecimal(n: nat, d: nat)
    requires d < 10
    ensures Digits(d) == ["0123456789"[d]]
    ensures n > 0 ==> Digits(10 * n + d) == Digits(n) + ["0123456789"[d]]
  {
    assert Digit(d) == "0123456789"[d];
  }

  lemma DigitIsListed(c: char)
    ensures IsDigit(c) <==> c in "0123456789"
  {
    var all := "0123456789";
    if IsDigit(c) { assert all[c as int - 48] == c; }
  }

  /** Digits and nothing else, at least one, make a number. */
  lemma {:induction false} DigitsAreNumbers(s: string)
    ensures ParseDigits(s).Some? <==> s != "" && forall i :: 0 <= i < |s| ==> s[i] in "0123456789"
  {
    if s == "" {
    } else {
      DigitIsListed(s[|s| - 1]);
      DigitsAreNumbers(s[..|s| - 1]);
      assert s == s[..|s| - 1] + [s[|s| - 1]];
    }
  }

  lemma SignsAreRead(digits: string)
    requires ParseDigits(digits).Some?
    ensures ParseInt("-" + digits).Some? && ParseInt("-" + digits).value + ParseDigits(digits).value == 0
    ensures ParseInt("+" + digits) == ParseInt(digits) == Some(ParseDigits(digits).value)
  {
    assert ("-" + digits)[1..] == digits && ("+" + digits)[1..] == digits;
    DigitsAreNumbers(digits);
    assert digits[0] in "0123456789";
  }

  lemma {:induction false} DigitsRoundTrip(n: nat)
    ensures ParseDigits(Digits(n)) == Some(n)
  {
    if n < 10 {
    } else {
      DigitsRoundTrip(n / 10);
      var s := Digits(n);
      assert s[..|s| - 1] == Digits(n / 10);
    }
  }

  lemma PrintRoundTrip(n: int)
    ensures ParseInt(Print(n)) == Some(n)
  {
    hide ParseDigits, Digits;
    if n < 0 {
      DigitsRoundTrip(-n);
      assert Print(n)[1..] == Digits(-n);
    } else {
      DigitsRoundTrip(n);
      assert IsDigit(Digits(n)[0]);
    }
  }

  lemma {:induction false} SplitWithoutComma(s: string)
    requires ',' !in s
    ensures Split(s) == [s]
  {
    if s == "" {
    } else {
      SplitWithoutComma(s[1..]);
      assert [s[0]] + s[1..] == s;
    }
  }

  lemma {:induction false} SplitAtComma(s: string, t: string)
    requires ',' !in s
    ensures Split(s + "," + t) == [s] + Split(t)
  {
    if s == "" {
      assert (s + "," + t)[1..] == t;
    } else {
      SplitAtComma(s[1..], t);
      assert (s + "," + t)[1..] == s[1..] + "," + t;
      assert [s[0]] + s[1..] == s;
    }
  }

  lemma ParseFirst(n: int, rest: seq<string>)
    ensures ParseParts([Print(n)] + rest) ==
            match ParseParts(rest)
            case Err(e) => Err(e)
            case Ok(ns) => Ok([n] + ns)
  {
    hide Print, ParseInt;
    PrintRoundTrip(n);
    assert ([Print(n)] + rest)[1..] == rest;
  }

  /** Joining process ids and parsing them back gives the same list, the empty one included. */
  lemma {:induction false} JoinRoundTrip(ns: seq<int>)
    ensures Parse(Join(ns)) == Ok(ns)
  {
    hide Print, ParseInt;
    if ns == [] {
      assert Split("") == [""] && [""][1..] == [];
    } else if |ns| == 1 {
      SplitWithoutComma(Print(ns[0]));
      ParseFirst(ns[0], []);
      assert [Print(ns[0])] + [] == [Print(ns[0])] && [ns[0]] + [] == ns;
    } else {
      hide ParseParts, Split;
      SplitAtComma(Print(ns[0]), Join(ns[1..]));
      ParseFirst(ns[0], Split(Join(ns[1..])));
      JoinRoundTrip(ns[1..]);
      assert ns == [ns[0]] + ns[1..];
    }
  }
  // ---- any text ----

  function JoinTexts(parts: seq<string>): string {
    if parts == [] then "" else if |parts| == 1 then parts[0] else parts[0] + "," + JoinTexts(parts[1..])
  }

  /** Splitting cuts at every comma and loses nothing. */
  lemma {:induction false} SplitIsExact(s: string)
    ensures JoinTexts(Split(s)) == s
    ensures forall i :: 0 <= i < |Split(s)| ==> ',' !in Split(s)[i]
  {
    if s == "" {
    } else {
      SplitIsExact(s[1..]);
      var rest, all := Split(s[1..]), Split(s);
      assert s == [s[0]] + s[1..];
      if s[0] == ',' {
        assert all[1..] == rest;
      } else {
        assert all[1..] == rest[1..] && all[0] == [s[0]] + rest[0];
        assert |rest| > 1 ==> rest[0] + "," + JoinTexts(rest[1..]) == s[1..];
      }
    }
  }

  function NonEmpty(parts: seq<string>): seq<string> {
    if parts == [] then [] else (if parts[0] == "" then [] else [parts[0]]) + NonEmpty(parts[1..])
  }

  /** The texts are numbers, and these are they. */
  predicate Denote(texts: seq<string>, ns: seq<int>) {
    |texts| == |ns| && forall i :: 0 <= i < |texts| ==> ParseInt(texts[i]) == Some(ns[i])
  }

  predicate AllNumbers(texts: seq<string>) { forall i :: 0 <= i < |texts| ==> ParseInt(texts[i]).Some? }

  lemma FirstDenotes(text: string, n: int, texts: seq<string>, ns: seq<int>)
    requires ParseInt(text) == Some(n) && Denote(texts, ns)
    ensures Denote([text] + texts, [n] + ns)
  {
    hide ParseInt;
  }

  lemma FirstIsNumber(text: string, texts: seq<string>)
    ensures AllNumbers([text] + texts) <==> ParseInt(text).Some? && AllNumbers(texts)
  {
    hide ParseInt;
    var all := [text] + texts;
    assert all[0] == text;
    forall i | 0 <= i < |texts| ensures all[i + 1] == texts[i] {}
  }

  lemma NothingDenotes()
    ensures AllNumbers([]) && Denote([], [])
  {}

  lemma {:induction false} PartsAreRead(parts: seq<string>)
    ensures ParseParts(parts).Ok? <==> AllNumbers(NonEmpty(parts))
    ensures ParseParts(parts).Ok? ==> Denote(NonEmpty(parts), ParseParts(parts).value)
  {
    hide ParseInt, AllNumbers, Denote;
    if parts == [] {
      NothingDenotes();
    } else {
      var rest := NonEmpty(parts[1..]);
      PartsAreRead(parts[1..]);
      if parts[0] == "" {
        assert [] + rest == rest;
      } else {
        FirstIsNumber(parts[0], rest);
        if ParseParts(parts).Ok? {
          FirstDenotes(parts[0], ParseInt(parts[0]).value, rest, ParseParts(parts[1..]).value);
        }
      }
    }
  }

  /** Any text is read as the numbers between its commas, empty parts skipped, unless one is no number. */
  lemma TextIsReadInParts(s: string)
    ensures Parse(s).Ok? <==> AllNumbers(NonEmpty(Split(s)))
    ensures Parse(s).Ok? ==> Denote(NonEmpty(Split(s)), Parse(s).value)
  {
    PartsAreRead(Split(s));
  }
}
