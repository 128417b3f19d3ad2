/** Splitting one logged event into fields: the separator is ten zeros and a colon. */
module LogFields {
  import opened Wrappers

  const SEPARATOR := "0000000000:"

  // ---- text ----

  /** The characters that stripping removes, all of Unicode's. */
  predicate IsSpace(c: char) {
    || c == ' ' || '\t' <= c <= '\r' || '\U{1C}' <= c <= '\U{1F}' || c == '\U{85}' || c == '\U{A0}'
    || c == '\U{1680}' || '\U{2000}' <= c <= '\U{200A}' || c == '\U{2028}' || c == '\U{2029}'
    || c == '\U{202F}' || c == '\U{205F}' || c == '\U{3000}'
  }

  function StripLeft(s: string): string {
    if s != "" && IsSpace(s[0]) then StripLeft(s[1..]) else s
  }

  function StripRight(s: string): string {
    if s != "" && IsSpace(s[|s| - 1]) then StripRight(s[..|s| - 1]) else s
  }

  function Strip(s: string): string { StripRight(StripLeft(s)) }

  predicate Blank(s: string) { forall i :: 0 <= i < |s| ==> IsSpace(s[i]) }

  predicate Trimmed(s: string) { s != "" && !IsSpace(s[0]) && !IsSpace(s[|s| - 1]) }

  /** The text before and after the first colon. */
  function Partition(s: string): Option<(string, string)> {
    if s == "" then None
    else if s[0] == ':' then Some(("", s[1..]))
    else match Partition(s[1..])
      case None => None
      case Some((k, v)) => Some(([s[0]] + k, v))
  }

  // ---- one chunk ----

  predicate Reserved(key: string) {
    key == "Request Header" || key == "Response Header" || key == "Parameters"
  }

  /** `extract_field_binary`; which characters are digits is Unicode's choice, so `digit` may be any class. */
  function Extract(chunk: string, digit: char -> bool): Option<(string, string)> {
    var text := Strip(chunk);
    if text == "" || text == "Event started" || text == "Event complete" then None
    else match Partition(text)
      case None => None
      case Some((k, v)) =>
        var key, value := Strip(k), Strip(v);
        if key == "" || value == "" || digit(key[0]) || Reserved(key) then None
        else Some((key, value))
  }

  // ---- the separator ----

  /** Leftmost, non-overlapping matches, as a regular expression finds them. */
  function Split(s: string): (chunks: seq<string>)
    ensures chunks != []
    decreases |s|
  {
    if SEPARATOR <= s then [""] + Split(s[|SEPARATOR|..])
    else if s == "" then [""]
    else
      var rest := Split(s[1..]);
      [[s[0]] + rest[0]] + rest[1..]
  }

  predicate OccursAt(s: string, i: int)
    requires 0 <= i <= |s|
  {
    SEPARATOR <= s[i..]
  }

  predicate Occurs(s: string) { exists i :: 0 <= i <= |s| && OccursAt(s, i) }

  // ---- all chunks of an event ----

  function FieldsOf(chunks: seq<string>, digit: char -> bool): map<string, string> {
    if chunks == [] then map[] else
      var n := |chunks| - 1;
      var fields := FieldsOf(chunks[..n], digit);
      match Extract(chunks[n], digit)
      case None => fields
      case Some((key, value)) => if key in fields then fields else fields[key := value]
  }

  method ParseFields(content: string, digit: char -> bool) returns (fields: map<string, string>)
    ensures fields == FieldsOf(Split(content), digit)
  {
    var chunks := Split(content);
    fields := map[];
    for i := 0 to |chunks|
      invariant fields == FieldsOf(chunks[..i], digit)
    {
      assert chunks[..i + 1][..i] == chunks[..i];
      var pair := Extract(chunks[i], digit);
      if pair.Some? && pair.value.0 !in fields {
        fields := fields[pair.value.0 := pair.value.1];
      }
    }
    assert chunks[..|chunks|] == chunks;
  }

  // ---- printing ----

  /** A field as the log writes it, with whatever blank space around its parts. */
  datatype Field = Field(key: string, value: string, before: string, mid: string, gap: string, after: string)
  {
    function Print(): string { before + key + mid + ":" + gap + value + after }

    predicate Printable(digit: char -> bool) {
      && Trimmed(key) && Trimmed(value)
      && ':' !in key && !digit(key[0]) && !Reserved(key)
      && Blank(before) && Blank(mid) && Blank(gap) && Blank(after)
      && !Occurs(Print())
    }
  }

  function PrintAll(fields: seq<Field>): string {
    if fields == [] then "" else SEPARATOR + fields[0].Print() + PrintAll(fields[1..])
  }

  function Chunks(fields: seq<Field>): seq<string> {
    seq(|fields|, i requires 0 <= i < |fields| => fields[i].Print())
  }

  /** The first value printed for each key. */
  function FirstValues(fields: seq<Field>): map<string, string> {
    if fields == [] then map[] else
      var n := |fields| - 1;
      var m := FirstValues(fields[..n]);
      if fields[n].key in m then m else m[fields[n].key := fields[n].value]
  }

  // ---- stripping ----

  lemma {:induction false} StripLeftBlank(b: string, s: string)
    requires Blank(b) && s != "" && !IsSpace(s[0])
    ensures StripLeft(b + s) == s
  {
    if b == "" {
      assert b + s == s;
    } else {
      assert (b + s)[1..] == b[1..] + s;
      StripLeftBlank(b[1..], s);
    }
  }

  lemma {:induction false} StripRightBlank(s: string, b: string)
    requires Blank(b) && s != "" && !IsSpace(s[|s| - 1])
    ensures StripRight(s + b) == s
  {
    if b == "" {
      assert s + b == s;
    } else {
      assert (s + b)[..|s + b| - 1] == s + b[..|b| - 1];
      StripRightBlank(s, b[..|b| - 1]);
    }
  }

  /** Blank space around a trimmed text is exactly what `strip` removes. */
  lemma StripPadding(a: string, s: string, b: string)
    requires Blank(a) && Trimmed(s) && Blank(b)
    ensures Strip(a + s + b) == s
  {
    assert a + s + b == a + (s + b);
    StripLeftBlank(a, s + b);
    StripRightBlank(s, b);
  }

  lemma {:induction false} PartitionAtColon(k: string, v: string)
    requires ':' !in k
    ensures Partition(k + ":" + v) == Some((k, v))
  {
    if k == "" {
      assert (k + ":" + v)[1..] == v;
    } else {
      assert (k + ":" + v)[1..] == k[1..] + ":" + v;
      PartitionAtColon(k[1..], v);
      assert [k[0]] + k[1..] == k;
    }
  }

  lemma NoColonInBlank(b: string)
    requires Blank(b)
    ensures ':' !in b
  {}

  lemma HasColon(a: string, b: string, core: string)
    requires core == a + ":" + b
    ensures core != "" && core != "Event started" && core != "Event complete"
  {
    assert core[|a|] == ':';
    assert forall i :: 0 <= i < |"Event started"| ==> "Event started"[i] != ':';
    assert forall i :: 0 <= i < |"Event complete"| ==> "Event complete"[i] != ':';
  }

  /** A trimmed key and a trimmed value with blank space around them and a colon between them. */
  predicate Pair(chunk: string, key: string, value: string, before: string, mid: string, gap: string, after: string) {
    && chunk == before + key + mid + ":" + gap + value + after
    && Blank(before) && Blank(mid) && Blank(gap) && Blank(after)
    && Trimmed(key) && Trimmed(value) && ':' !in key
  }

  /** A key that names a field: it does not start with a digit and is not one of the three headings. */
  predicate FieldKey(key: string, digit: char -> bool)
    requires key != ""
  {
    !digit(key[0]) && key !in {"Request Header", "Response Header", "Parameters"}
  }

  lemma PairIsRead(chunk: string, key: string, value: string, before: string, mid: string, gap: string, after: string,
                   digit: char -> bool)
    requires Pair(chunk, key, value, before, mid, gap, after)
    ensures Extract(chunk, digit) == if FieldKey(key, digit) then Some((key, value)) else None
  {
    hide StripLeft, StripRight, Partition;
    var core := key + mid + ":" + gap + value;
    assert chunk == before + core + after;
    StripPadding(before, core, after);
    NoColonInBlank(mid);
    assert core == (key + mid) + ":" + (gap + value);
    PartitionAtColon(key + mid, gap + value);
    StripPadding("", key, mid);
    assert "" + key + mid == key + mid;
    StripPadding(gap, value, "");
    assert gap + value + "" == gap + value;
    HasColon(key + mid, gap + value, core);
  }

  /** A printed field is read back as it was. */
  lemma ExtractPrinted(f: Field, digit: char -> bool)
    requires f.Printable(digit)
    ensures Extract(f.Print(), digit) == Some((f.key, f.value))
  {
    hide Occurs;
    PairIsRead(f.Print(), f.key, f.value, f.before, f.mid, f.gap, f.after, digit);
  }

  // ---- any chunk ----

  lemma {:induction false} StripLeftIs(s: string) returns (a: string)
    ensures Blank(a) && s == a + StripLeft(s)
    ensures StripLeft(s) != "" ==> !IsSpace(StripLeft(s)[0])
  {
    if s == "" || !IsSpace(s[0]) {
      a := "";
    } else {
      var rest := StripLeftIs(s[1..]);
      a := [s[0]] + rest;
    }
  }

  lemma {:induction false} StripRightIs(s: string) returns (b: string)
    ensures Blank(b) && s == StripRight(s) + b
    ensures StripRight(s) != "" ==> !IsSpace(StripRight(s)[|StripRight(s)| - 1])
  {
    if s == "" || !IsSpace(s[|s| - 1]) {
      b := "";
    } else {
      var rest := StripRightIs(s[..|s| - 1]);
      b := rest + [s[|s| - 1]];
    }
  }

  /** What stripping takes away is blank, and what is left is trimmed or empty. */
  lemma StripIs(s: string) returns (a: string, b: string)
    ensures Blank(a) && Blank(b) && s == a + Strip(s) + b && (Strip(s) != "" ==> Trimmed(Strip(s)))
  {
    hide StripLeft, StripRight;
    a := StripLeftIs(s);
    b := StripRightIs(StripLeft(s));
    assert s == a + (Strip(s) + b);
    if Strip(s) != "" { assert StripLeft(s)[0] == Strip(s)[0]; }
  }

  lemma {:induction false} PartitionIs(s: string)
    ensures Partition(s).None? <==> ':' !in s
    ensures Partition(s).Some? ==> var (k, v) := Partition(s).value; s == k + ":" + v && ':' !in k
  {
    if s == "" {
    } else {
      PartitionIs(s[1..]);
      assert s == [s[0]] + s[1..];
    }
  }

  lemma ExtractedIsAPair(chunk: string, digit: char -> bool)
    returns (before: string, mid: string, gap: string, after: string)
    requires Extract(chunk, digit).Some?
    ensures var (key, value) := Extract(chunk, digit).value;
            Pair(chunk, key, value, before, mid, gap, after) && FieldKey(key, digit)
  {
    hide Strip, Partition;
    var (key, value) := Extract(chunk, digit).value;
    var a, b := StripIs(chunk);
    PartitionIs(Strip(chunk));
    var (k, v) := Partition(Strip(chunk)).value;
    var c, d := StripIs(k);
    var e, f := StripIs(v);
    assert chunk == (a + c) + key + d + ":" + e + value + (f + b);
    before, mid, gap, after := a + c, d, e, f + b;
    forall i | 0 <= i < |key| ensures key[i] != ':' { assert k[|c| + i] == key[i]; }
  }

  ghost predicate IsPair(chunk: string, key: string, value: string) {
    exists before, mid, gap, after :: Pair(chunk, key, value, before, mid, gap, after)
  }

  /**
    A chunk gives a field exactly if it is a trimmed key and a trimmed value around its
    first colon, with any blank space around them, and the key names a field; all other
    chunks, headings and lines without a value among them, give none.
   */
  lemma ExtractIff(chunk: string, digit: char -> bool, key: string, value: string)
    ensures Extract(chunk, digit) == Some((key, value)) <==> IsPair(chunk, key, value) && FieldKey(key, digit)
  {
    hide Extract, Pair, FieldKey, Trimmed, Blank;
    if Extract(chunk, digit) == Some((key, value)) {
      var before, mid, gap, after := ExtractedIsAPair(chunk, digit);
      assert Pair(chunk, key, value, before, mid, gap, after);
    }
    if IsPair(chunk, key, value) {
      var before, mid, gap, after :| Pair(chunk, key, value, before, mid, gap, after);
      PairIsRead(chunk, key, value, before, mid, gap, after, digit);
    }
  }

  /** The blank characters by their codes. */
  lemma SpacesAre(c: char)
    ensures IsSpace(c) <==>
            var code := c as int;
            9 <= code <= 13 || 28 <= code <= 32 || code in {133, 160, 5760} || 8192 <= code <= 8202
            || code in {8232, 8233, 8239, 8287, 12288}
  {}

  // ---- splitting ----

  lemma OccursInTail(s: string)
    requires s != "" && !Occurs(s)
    ensures !Occurs(s[1..])
  {
    forall i | 0 <= i <= |s[1..]| && OccursAt(s[1..], i) ensures OccursAt(s, i + 1) {
      assert s[1..][i..] == s[i + 1..];
    }
  }

  /** A match must end at a colon with ten zeros before it, so none begins inside the text. */
  lemma NoEarlyMatch(s: string, t: string)
    requires s != "" && !Occurs(s)
    ensures !(SEPARATOR <= s + SEPARATOR + t)
  {
    var all := s + SEPARATOR + t;
    assert |s| <= 10 ==> all[10] == SEPARATOR[10 - |s|] == '0' != SEPARATOR[10];
    assert s[0..] == s && !OccursAt(s, 0);
    assert |s| > 10 ==> s[..11] == all[..11];
  }

  /** Text that does not itself hold the separator is not split before the next separator. */
  lemma {:induction false} SplitBeforeSeparator(s: string, t: string)
    requires !Occurs(s)
    ensures Split(s + SEPARATOR + t) == [s] + Split(t)
  {
    var all := s + SEPARATOR + t;
    if s == "" {
      assert all == SEPARATOR + t;
      assert all[|SEPARATOR|..] == t;
    } else {
      NoEarlyMatch(s, t);
      assert all[1..] == s[1..] + SEPARATOR + t;
      OccursInTail(s);
      SplitBeforeSeparator(s[1..], t);
      assert [s[0]] + s[1..] == s;
    }
  }

  lemma {:induction false} SplitWithoutSeparator(s: string)
    requires !Occurs(s)
    ensures Split(s) == [s]
  {
    if s != "" {
      assert !OccursAt(s, 0);
      assert s[0..] == s;
      OccursInTail(s);
      SplitWithoutSeparator(s[1..]);
      assert [s[0]] + s[1..] == s;
    } else {
      assert !OccursAt(s, 0);
    }
  }

  lemma Regroup(a: string, b: string, c: string, d: string)
    ensures a + (b + c + d) == a + b + (c + d)
  {}

  lemma PrintFirst(lead: string, fields: seq<Field>)
    requires fields != []
    ensures lead + PrintAll(fields) == lead + SEPARATOR + (fields[0].Print() + PrintAll(fields[1..]))
  {
    hide Field.Print;
    Regroup(lead, SEPARATOR, fields[0].Print(), PrintAll(fields[1..]));
  }

  lemma ChunkFirst(fields: seq<Field>)
    requires fields != []
    ensures Chunks(fields) == [fields[0].Print()] + Chunks(fields[1..])
  {
    hide Field.Print;
  }

  /** Splitting a printed event gives back its lead-in and its chunks. */
  lemma {:induction false} SplitPrinted(lead: string, fields: seq<Field>, digit: char -> bool)
    requires !Occurs(lead) && forall i :: 0 <= i < |fields| ==> fields[i].Printable(digit)
    ensures Split(lead + PrintAll(fields)) == [lead] + Chunks(fields)
    decreases |fields|
  {
    if fields == [] {
      assert lead + PrintAll(fields) == lead;
      SplitWithoutSeparator(lead);
    } else {
      hide Split, Occurs, Trimmed, Blank, PrintAll, Chunks;
      var rest := fields[0].Print() + PrintAll(fields[1..]);
      PrintFirst(lead, fields);
      ChunkFirst(fields);
      SplitBeforeSeparator(lead, rest);
      SplitPrinted(fields[0].Print(), fields[1..], digit);
    }
  }

  lemma {:induction false} FieldsOfPrinted(lead: string, fields: seq<Field>, digit: char -> bool)
    requires Extract(lead, digit).None? && forall i :: 0 <= i < |fields| ==> fields[i].Printable(digit)
    ensures FieldsOf([lead] + Chunks(fields), digit) == FirstValues(fields)
  {
    var chunks := [lead] + Chunks(fields);
    if fields == [] {
      assert chunks[..0] == [];
    } else {
      var n := |fields| - 1;
      assert chunks[..|chunks| - 1] == [lead] + Chunks(fields[..n]);
      FieldsOfPrinted(lead, fields[..n], digit);
      ExtractPrinted(fields[n], digit);
      assert chunks[|chunks| - 1] == fields[n].Print();
    }
  }

  /**
    Splitting and extracting undo printing: every key comes back with the first value
    printed for it, whatever blank space was written around the parts.
   */
  lemma ParsingUndoesPrinting(lead: string, fields: seq<Field>, digit: char -> bool)
    requires !Occurs(lead) && Extract(lead, digit).None?
    requires forall i :: 0 <= i < |fields| ==> fields[i].Printable(digit)
    ensures FieldsOf(Split(lead + PrintAll(fields)), digit) == FirstValues(fields)
  {
    hide Split, Extract, FieldsOf;
    SplitPrinted(lead, fields, digit);
    FieldsOfPrinted(lead, fields, digit);
  }
  // ---- any content ----

  /** The chunks with the separator, ten zeros and a colon, between them. */
  function Joined(chunks: seq<string>): string
    requires chunks != []
  {
    if |chunks| == 1 then chunks[0] else chunks[0] + "0000000000:" + Joined(chunks[1..])
  }

  lemma Prepend(c: char, x: string, y: string, z: string)
    ensures ([c] + x) + y + z == [c] + (x + y + z) && x <= x + y + z
  {}

  lemma JoinedWithFirst(c: char, chunks: seq<string>)
    requires chunks != []
    ensures Joined([[c] + chunks[0]] + chunks[1..]) == [c] + Joined(chunks)
    ensures chunks[0] <= Joined(chunks)
  {
    var all := [[c] + chunks[0]] + chunks[1..];
    if |chunks| > 1 {
      assert all[1..] == chunks[1..];
      Prepend(c, chunks[0], "0000000000:", Joined(chunks[1..]));
    }
  }

  lemma NoOccurrenceAtFirst(s: string, chunk: string)
    requires s != "" && !(SEPARATOR <= s) && chunk <= s[1..] && !Occurs(chunk)
    ensures !Occurs([s[0]] + chunk)
  {
    var longer := [s[0]] + chunk;
    assert longer <= s by { assert s == [s[0]] + s[1..]; }
    forall i | 0 <= i <= |longer| ensures !OccursAt(longer, i) {
      if i == 0 {
        assert longer[0..] == longer;
      } else {
        assert longer[i..] == chunk[i - 1..] && !OccursAt(chunk, i - 1);
      }
    }
  }

  /** Splitting cuts at every separator and loses nothing, whatever the content is. */
  lemma {:induction false} SplitIsExact(s: string)
    ensures Joined(Split(s)) == s
    ensures forall i :: 0 <= i < |Split(s)| ==> !Occurs(Split(s)[i])
    decreases |s|
  {
    if SEPARATOR <= s {
      var rest := s[|SEPARATOR|..];
      SplitIsExact(rest);
      assert Split(s)[1..] == Split(rest) && s == SEPARATOR + rest;
      assert !Occurs("") by { assert !OccursAt("", 0); }
    } else if s == "" {
      assert !Occurs("") by { assert !OccursAt("", 0); }
    } else {
      SplitIsExact(s[1..]);
      var rest := Split(s[1..]);
      JoinedWithFirst(s[0], rest);
      assert [s[0]] + s[1..] == s;
      NoOccurrenceAtFirst(s, rest[0]);
    }
  }

  predicate Gives(chunk: string, digit: char -> bool, key: string) {
    Extract(chunk, digit).Some? && Extract(chunk, digit).value.0 == key
  }

  /** The `i`-th chunk is the first that gives the key. */
  predicate FirstGives(chunks: seq<string>, digit: char -> bool, key: string, i: int) {
    0 <= i < |chunks| && Gives(chunks[i], digit, key) && forall j :: 0 <= j < i ==> !Gives(chunks[j], digit, key)
  }

  lemma {:induction false} NoFirst(chunks: seq<string>, digit: char -> bool, key: string, j: int)
    requires 0 <= j < |chunks| && forall i :: !FirstGives(chunks, digit, key, i)
    ensures !Gives(chunks[j], digit, key)
    decreases j
  {
    if j == 0 {
      assert !FirstGives(chunks, digit, key, 0);
    } else {
      forall i | 0 <= i < j ensures !Gives(chunks[i], digit, key) { NoFirst(chunks, digit, key, i); }
      assert !FirstGives(chunks, digit, key, j);
    }
  }

  /** From any chunks, each key that some chunk gives has the value of the first one, and no other key is there. */
  lemma {:induction false} FirstChunkWins(chunks: seq<string>, digit: char -> bool, key: string)
    ensures key in FieldsOf(chunks, digit) <==> exists i :: FirstGives(chunks, digit, key, i)
    ensures forall i :: FirstGives(chunks, digit, key, i) && key in FieldsOf(chunks, digit) ==>
              Some((key, FieldsOf(chunks, digit)[key])) == Extract(chunks[i], digit)
  {
    hide Extract;
    if chunks == [] {
    } else {
      var n := |chunks| - 1;
      var before := chunks[..n];
      FirstChunkWins(before, digit, key);
      forall i | 0 <= i < n ensures FirstGives(before, digit, key, i) == FirstGives(chunks, digit, key, i) {}
      if key in FieldsOf(before, digit) {
        var i :| FirstGives(before, digit, key, i);
        assert FirstGives(chunks, digit, key, i);
        assert !FirstGives(chunks, digit, key, n);
      } else if Gives(chunks[n], digit, key) {
        forall j | 0 <= j < n ensures !Gives(chunks[j], digit, key) { NoFirst(before, digit, key, j); }
        assert FirstGives(chunks, digit, key, n);
      }
    }
  }
}
