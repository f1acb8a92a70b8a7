/**
 * The duration grammar of `parse_time` (utils.py). The "complex" regular expression
 *
 *   ^ (<d> \s* dayunit)? \s* (<h> \s* hourunit)? \s* (<m> \s* minuteunit)? \s* (<s> \s* secondunit)? \s* $
 *
 * is written as a deterministic scanner over four slots (days, hours, minutes, seconds): each slot
 * holds an optional field `<digits><spaces><unit>` and is followed by a run of whitespace. The "simple"
 * expression `^\d+$` is a bare count of hours.
 */
module TimeParser {
  import opened Wrappers
  import opened Numerals

  /** Python's `\s` on ASCII characters: \t \n \v \f \r, the separators 0x1C-0x1F, and space. */
  predicate IsSpace(c: char) {
    c == ' ' || '\t' <= c <= '\r' || '\U{1C}' <= c <= '\U{1F}'
  }

  /**
   * After the digits (and spaces) of a field the regex needs a unit, and after the unit it needs
   * whitespace, a digit or the end of the input. So the unit is always the whole run of characters
   * that are neither digits nor whitespace; those characters are of class Word.
   */
  datatype CharClass = Digit | Space | Word

  function ClassOf(c: char): CharClass {
    if IsDigit(c) then Digit else if IsSpace(c) then Space else Word
  }

  predicate AllOf(s: string, k: CharClass) {
    forall i :: 0 <= i < |s| ==> ClassOf(s[i]) == k
  }

  /** Length of the longest prefix of `t` whose characters are all of class `k`. */
  function Span(t: string, k: CharClass): (n: nat)
    ensures n <= |t|
    ensures n < |t| ==> ClassOf(t[n]) != k
  {
    if t != [] && ClassOf(t[0]) == k then 1 + Span(t[1..], k) else 0
  }

  lemma {:induction false} SpanAll(t: string, k: CharClass)
    ensures AllOf(t[..Span(t, k)], k)
  {
    if t != [] && ClassOf(t[0]) == k {
      SpanAll(t[1..], k);
      assert t[..Span(t, k)] == [t[0]] + t[1..][..Span(t[1..], k)];
    }
  }

  const DayUnits: set<string> := {"d", "D", "day", "days"}
  const HourUnits: set<string> := {"h", "H", "hour", "hours"}
  const MinuteUnits: set<string> := {"m", "M", "min", "mins", "minute", "minutes"}
  const SecondUnits: set<string> := {"s", "S", "sec", "secs", "second", "seconds"}

  /** The unit spellings of slot 0 (days), 1 (hours), 2 (minutes) and 3 (seconds). */
  const Units: seq<set<string>> := [DayUnits, HourUnits, MinuteUnits, SecondUnits]

  /** The seconds one unit of slot k stands for. */
  function ScaleAt(k: nat): nat
    requires k < 4
  {
    [86400, 3600, 60, 1][k]
  }

  /**
   * A table of unit spellings the scanner can work with: four slots, every spelling a non-empty word,
   * and no spelling shared by two slots. The scanner and its proofs are stated over any such table;
   * `Units` is one (UnitsOk).
   */
  ghost predicate TableOk(units: seq<set<string>>) {
    && |units| == 4
    && (forall k, u :: 0 <= k < 4 && u in units[k] ==> |u| > 0 && AllOf(u, Word))
    && (forall j, k, u :: 0 <= j < 4 && 0 <= k < 4 && j != k && u in units[k] ==> u !in units[j])
  }

  /** One `<digits><spaces><unit>` field as it stands in the text. */
  datatype Field = Field(digits: string, gap: string, unit: string)

  function FieldText(f: Field): string {
    f.digits + f.gap + f.unit
  }

  predicate FieldOk(f: Field, units: set<string>) {
    |f.digits| > 0 && AllOf(f.digits, Digit) && AllOf(f.gap, Space) && f.unit in units
  }

  lemma Concat4(t: string, a: nat, b: nat, c: nat)
    requires a <= b <= c <= |t|
    ensures t[..a] + t[a..b] + t[b..c] + t[c..] == t
  {
    assert t[..a] + t[a..b] == t[..b];
    assert t[..b] + t[b..c] == t[..c];
  }

  /** Reads a field of the given units at the start of `t`, returning it and the rest of the text. */
  function ScanField(t: string, units: set<string>): (r: Option<(Field, string)>)
    ensures r.Some? ==> FieldOk(r.value.0, units) && FieldText(r.value.0) + r.value.1 == t
    ensures r.Some? ==> r.value.1 == [] || ClassOf(r.value.1[0]) != Word
  {
    var n := Span(t, Digit);
    if n == 0 then None
    else
      var g := n + Span(t[n..], Space);
      var w := g + Span(t[g..], Word);
      var unit := t[g..w];
      if unit in units then
        SpanAll(t, Digit);
        SpanAll(t[n..], Space);
        assert t[n..g] == t[n..][..g - n];
        Concat4(t, n, g, w);
        Some((Field(t[..n], t[n..g], unit), t[w..]))
      else None
  }

  /**
   * How a string spells slots k..3: for each slot its optional field, then the whitespace that the
   * regex's `\s*` eats after it.
   */
  datatype Spelling = End | Slot(field: Option<Field>, gap: string, next: Spelling)

  function FieldPart(field: Option<Field>): string {
    if field.Some? then FieldText(field.value) else ""
  }

  function Text(sp: Spelling): string {
    match sp
    case End => ""
    case Slot(field, gap, next) => FieldPart(field) + gap + Text(next)
  }

  /**
   * `sp` spells slots k..3. Each field uses its slot's units, each gap is whitespace, and from slot 1
   * on the gap after an absent field is empty: the whitespace before a field is recorded after the
   * last field that is present (or in slot 0's gap when there is none). This makes the spelling of a
   * string unique.
   */
  predicate Canonical(sp: Spelling, k: nat, units: seq<set<string>>)
    requires k <= 4 && |units| == 4
    decreases 4 - k
  {
    match sp
    case End => k == 4
    case Slot(field, gap, next) =>
      && k < 4
      && (field.Some? ==> FieldOk(field.value, units[k]))
      && AllOf(gap, Space)
      && (k >= 1 && field.None? ==> gap == "")
      && Canonical(next, k + 1, units)
  }

  /** The number of seconds that slots k..3 of a spelling stand for. */
  function Total(sp: Spelling, k: nat, units: seq<set<string>>): nat
    requires k <= 4 && |units| == 4 && Canonical(sp, k, units)
    decreases 4 - k
  {
    match sp
    case End => 0
    case Slot(field, _, next) =>
      (if field.Some? then Value(field.value.digits) * ScaleAt(k) else 0) + Total(next, k + 1, units)
  }

  /** Slot k: an optional field; when it does not match here the regex skips the group and goes on at the same place. */
  function ReadSlot(t: string, k: nat, units: seq<set<string>>): (r: (Option<Field>, string))
    requires k < 4 && |units| == 4
    ensures FieldPart(r.0) + r.1 == t
    ensures r.0.Some? ==> FieldOk(r.0.value, units[k]) && (r.1 == [] || ClassOf(r.1[0]) != Word)
    ensures r.0.None? ==> r.1 == t
  {
    match ScanField(t, units[k])
    case Some((f, rest)) => (Some(f), rest)
    case None => (None, t)
  }

  lemma SplitAt(t: string, n: nat)
    requires n <= |t|
    ensures t[..n] + t[n..] == t
  {
  }

  lemma Assoc(a: string, b: string, c: string)
    ensures (a + b) + c == a + (b + c)
  {
  }

  /**
   * Matches slots k..3 and the final `\s*$` against `t`, or fails. From slot 1 on, `t` follows a
   * `\s*` that has already taken all the whitespace, so it does not start with a space.
   */
  function ScanSlots(t: string, k: nat, units: seq<set<string>>): (r: Option<Spelling>)
    requires k <= 4 && |units| == 4
    requires k >= 1 ==> t == [] || ClassOf(t[0]) != Space
    ensures r.Some? ==> Canonical(r.value, k, units) && Text(r.value) == t
    decreases 4 - k
  {
    if k == 4 then
      if t == [] then Some(End) else None
    else
      var slot := ReadSlot(t, k, units);
      var t1 := slot.1;
      var n := Span(t1, Space);
      match ScanSlots(t1[n..], k + 1, units)
      case None => None
      case Some(next) =>
        assert slot.0.None? && k >= 1 ==> n == 0;
        SpanAll(t1, Space);
        SplitAt(t1, n);
        Assoc(FieldPart(slot.0), t1[..n], t1[n..]);
        Some(Slot(slot.0, t1[..n], next))
  }

  /** `^\d+$`: digits only, where Python's `$` also matches just before a final newline. */
  predicate IsSimple(s: string) {
    || (|s| > 0 && AllDigits(s))
    || (|s| > 1 && s[|s| - 1] == '\n' && AllDigits(s[..|s| - 1]))
  }

  function SimpleDigits(s: string): (ds: string)
    requires IsSimple(s)
    ensures AllDigits(ds) && |ds| > 0
    ensures s == ds || s == ds + "\n"
  {
    if s[|s| - 1] == '\n' then s[..|s| - 1] else s
  }

  /**
   * `parse_time`: the whole seconds the token stands for, or None. The empty string is refused before
   * either expression is tried; the bare-integer grammar (hours) is tried only when the complex one fails.
   */
  function ParseTime(s: string): (r: Option<nat>)
    ensures s == [] ==> r.None?
    ensures r.Some? ==> ScanSlots(s, 0, Units).Some? || IsSimple(s)
  {
    if s == [] then None
    else
      match ScanSlots(s, 0, Units)
      case Some(sp) => Some(Total(sp, 0, Units))
      case None => if IsSimple(s) then Some(Value(SimpleDigits(s)) * 3600) else None
  }
}

/** What `parse_time` accepts and returns: the complex grammar exactly, the bare-hours fallback, and the quirks. */
module TimeParserProperties {
  import opened Wrappers
  import opened Numerals
  import opened TimeParser

  lemma {:induction false} SpanOf(a: string, b: string, k: CharClass)
    requires AllOf(a, k) && (b == [] || ClassOf(b[0]) != k)
    ensures Span(a + b, k) == |a|
    decreases |a|
  {
    if a != [] {
      assert (a + b)[1..] == a[1..] + b;
      SpanOf(a[1..], b, k);
    }
  }

  /** The bot's own unit spellings form a table the scanner works with. */
  lemma UnitsOk()
    ensures TableOk(Units)
  {
    forall k, u | 0 <= k < 4 && u in Units[k]
      ensures |u| > 0 && AllOf(u, Word)
    {
    }
  }

  lemma FieldSlices(f: Field, rest: string)
    ensures var t, n, g := FieldText(f) + rest, |f.digits|, |f.digits| + |f.gap|;
      && t[..n] == f.digits && t[n..] == f.gap + (f.unit + rest)
      && t[n..g] == f.gap && t[g..] == f.unit + rest
      && t[g..g + |f.unit|] == f.unit && t[g + |f.unit|..] == rest
  {
  }

  lemma FieldSpans(f: Field, rest: string)
    requires |f.digits| > 0 && AllOf(f.digits, Digit) && AllOf(f.gap, Space)
    requires |f.unit| > 0 && AllOf(f.unit, Word)
    requires rest == [] || ClassOf(rest[0]) != Word
    ensures var t, n, g := FieldText(f) + rest, |f.digits|, |f.digits| + |f.gap|;
      && Span(t, Digit) == n && Span(t[n..], Space) == |f.gap| && Span(t[g..], Word) == |f.unit|
  {
    FieldSlices(f, rest);
    assert FieldText(f) + rest == f.digits + (f.gap + (f.unit + rest));
    SpanOf(f.digits, f.gap + (f.unit + rest), Digit);
    SpanOf(f.gap, f.unit + rest, Space);
    SpanOf(f.unit, rest, Word);
  }

  /** A well-formed field followed by a non-letter is read back exactly when its unit belongs to the slot. */
  lemma ScanFieldOf(f: Field, rest: string, units: set<string>)
    requires |f.digits| > 0 && AllOf(f.digits, Digit) && AllOf(f.gap, Space)
    requires |f.unit| > 0 && AllOf(f.unit, Word)
    requires rest == [] || ClassOf(rest[0]) != Word
    ensures ScanField(FieldText(f) + rest, units) == if f.unit in units then Some((f, rest)) else None
  {
    FieldSlices(f, rest);
    FieldSpans(f, rest);
  }

  /** A field of slot k, followed by a non-letter, is read by slot k and by no other slot. */
  lemma ScanFieldAt(f: Field, rest: string, k: nat, j: nat, units: seq<set<string>>)
    requires TableOk(units) && k < 4 && j < 4 && FieldOk(f, units[k])
    requires rest == [] || ClassOf(rest[0]) != Word
    ensures ScanField(FieldText(f) + rest, units[j]) == if j == k then Some((f, rest)) else None
  {
    ScanFieldOf(f, rest, units[j]);
  }

  /** Text spelled from slot k >= 1 on is empty or starts with the first digit of a field. */
  lemma {:induction false} LaterStart(sp: Spelling, k: nat, units: seq<set<string>>)
    requires 1 <= k <= 4 && |units| == 4 && Canonical(sp, k, units)
    ensures Text(sp) == [] || ClassOf(Text(sp)[0]) == Digit
    decreases 4 - k
  {
    match sp
    case End =>
    case Slot(field, gap, next) =>
      LaterStart(next, k + 1, units);
      if field.Some? {
        assert Text(sp)[0] == field.value.digits[0];
      }
  }

  /** No slot before k can read the text spelled from slot k on: the unit sets are disjoint. */
  lemma {:induction false} LaterSlot(sp: Spelling, k: nat, j: nat, units: seq<set<string>>)
    requires TableOk(units) && 1 <= k <= 4 && j < k && Canonical(sp, k, units)
    ensures ScanField(Text(sp), units[j]) == None
    decreases 4 - k
  {
    match sp
    case End =>
    case Slot(field, gap, next) =>
      if field.Some? {
        LaterStart(next, k + 1, units);
        Assoc(FieldText(field.value), gap, Text(next));
        var rest := gap + Text(next);
        assert Text(sp) == FieldText(field.value) + rest;
        assert rest == [] || ClassOf(rest[0]) != Word by {
          if gap != [] {
            assert rest[0] == gap[0];
          }
        }
        ScanFieldAt(field.value, rest, k, j, units);
      } else {
        assert Text(sp) == Text(next);
        LaterSlot(next, k + 1, j, units);
      }
  }

  /** One slot of the scanner on a canonical spelling reads back its field and leaves gap and rest. */
  lemma SlotOf(sp: Spelling, k: nat, units: seq<set<string>>)
    requires TableOk(units) && k < 4 && Canonical(sp, k, units)
    ensures Text(sp) == FieldPart(sp.field) + (sp.gap + Text(sp.next))
    ensures ReadSlot(Text(sp), k, units) == (sp.field, sp.gap + Text(sp.next))
  {
    var t1 := sp.gap + Text(sp.next);
    Assoc(FieldPart(sp.field), sp.gap, Text(sp.next));
    if sp.field.Some? {
      LaterStart(sp.next, k + 1, units);
      assert t1 == [] || ClassOf(t1[0]) != Word by {
        if sp.gap != [] {
          assert t1[0] == sp.gap[0];
        }
      }
      ScanFieldAt(sp.field.value, t1, k, k, units);
      assert ScanField(Text(sp), units[k]) == Some((sp.field.value, t1));
    } else if sp.gap == [] {
      assert Text(sp) == Text(sp.next);
      LaterSlot(sp.next, k + 1, k, units);
      assert ScanField(Text(sp), units[k]) == None;
    } else {
      assert Text(sp) == t1 && Text(sp)[0] == sp.gap[0];
      assert Span(Text(sp), Digit) == 0;
      assert ScanField(Text(sp), units[k]) == None;
    }
  }

  lemma GapOf(sp: Spelling, k: nat, units: seq<set<string>>)
    requires |units| == 4 && k < 4 && Canonical(sp, k, units)
    ensures var t1 := sp.gap + Text(sp.next);
      Span(t1, Space) == |sp.gap| && t1[..|sp.gap|] == sp.gap && t1[|sp.gap|..] == Text(sp.next)
  {
    LaterStart(sp.next, k + 1, units);
    SpanOf(sp.gap, Text(sp.next), Space);
  }

  /** Completeness: the scanner reads every canonical spelling back as itself. */
  lemma {:induction false} ScanSlotsComplete(sp: Spelling, k: nat, units: seq<set<string>>)
    requires TableOk(units) && k <= 4 && Canonical(sp, k, units)
    ensures k >= 1 ==> Text(sp) == [] || ClassOf(Text(sp)[0]) != Space
    ensures ScanSlots(Text(sp), k, units) == Some(sp)
    decreases 4 - k
  {
    if k >= 1 {
      LaterStart(sp, k, units);
    }
    match sp
    case End =>
    case Slot(field, gap, next) =>
      SlotOf(sp, k, units);
      GapOf(sp, k, units);
      ScanSlotsComplete(next, k + 1, units);
      var t1 := gap + Text(next);
      assert ReadSlot(Text(sp), k, units) == (field, t1);
      assert t1[Span(t1, Space)..] == Text(next);
      assert ScanSlots(t1[Span(t1, Space)..], k + 1, units) == Some(next);
  }

  /** Slots k..m-1 that see no field at a non-space start are skipped, so the text is refused if slot m refuses it. */
  lemma {:induction false} SkipTo(t: string, k: nat, m: nat, units: seq<set<string>>)
    requires |units| == 4 && k <= m <= 4 && t != [] && ClassOf(t[0]) != Space
    requires forall j :: k <= j < m ==> ScanField(t, units[j]) == None
    requires ScanSlots(t, m, units) == None
    ensures ScanSlots(t, k, units) == None
    decreases m - k
  {
    if k < m {
      SkipTo(t, k + 1, m, units);
      assert ReadSlot(t, k, units) == (None, t);
      assert Span(t, Space) == 0 && t[0..] == t;
    }
  }

  /** A text that starts with neither whitespace nor a field of slots k..3 is refused by those slots. */
  lemma NoFieldFrom(t: string, k: nat, units: seq<set<string>>)
    requires |units| == 4 && k <= 4 && t != [] && ClassOf(t[0]) != Space
    requires forall j :: k <= j < 4 ==> ScanField(t, units[j]) == None
    ensures ScanSlots(t, k, units) == None
  {
    SkipTo(t, k, 4, units);
  }

  /** Digits followed only by whitespace have no unit, so no field of the given units is read there. */
  lemma NoUnitIn(ds: string, ws: string, units: set<string>)
    requires |ds| > 0 && AllOf(ds, Digit) && AllOf(ws, Space) && "" !in units
    ensures ScanField(ds + ws, units) == None
  {
    var t := ds + ws;
    var n := |ds|;
    SpanOf(ds, ws, Digit);
    assert t[n..] == ws + [];
    SpanOf(ws, [], Space);
    var g := n + |ws|;
    assert g == |t| && t[g..] == [];
    assert Span(t[g..], Word) == 0;
    assert t[g..g] == "";
  }

  lemma NoUnit(ds: string, ws: string, units: seq<set<string>>)
    requires TableOk(units) && |ds| > 0 && AllOf(ds, Digit) && AllOf(ws, Space)
    ensures forall j :: 0 <= j < 4 ==> ScanField(ds + ws, units[j]) == None
  {
    forall j | 0 <= j < 4
      ensures ScanField(ds + ws, units[j]) == None
    {
      assert "" !in units[j];
      NoUnitIn(ds, ws, units[j]);
    }
  }

  lemma DigitsAre(s: string)
    requires AllDigits(s)
    ensures AllOf(s, Digit)
  {
  }

  /** What the bare-hours grammar accepts, the complex one refuses: the fallback is reached exactly on those. */
  lemma SimpleNotComplex(s: string)
    requires IsSimple(s)
    ensures ScanSlots(s, 0, Units) == None
  {
    UnitsOk();
    var ds := SimpleDigits(s);
    var ws := if s[|s| - 1] == '\n' then "\n" else "";
    assert s == ds + ws;
    DigitsAre(ds);
    NoUnit(ds, ws, Units);
    NoFieldFrom(s, 0, Units);
  }

  /** Any canonical non-empty spelling is parsed to the seconds its fields stand for. */
  lemma ParseSpelling(sp: Spelling)
    requires Canonical(sp, 0, Units) && Text(sp) != []
    ensures ParseTime(Text(sp)) == Some(Total(sp, 0, Units))
  {
    UnitsOk();
    ScanSlotsComplete(sp, 0, Units);
  }

  /**
   * The meaning of `parse_time`: n is returned exactly when the non-empty token spells d, h, m, s
   * fields adding up to n in the complex grammar, or, failing that, is a bare count of n / 3600 hours.
   */
  lemma ParseTimeMeaning(s: string, n: nat)
    ensures ParseTime(s) == Some(n) <==>
      && s != []
      && ((exists sp :: Canonical(sp, 0, Units) && Text(sp) == s && Total(sp, 0, Units) == n)
          || (IsSimple(s) && n == Value(SimpleDigits(s)) * 3600))
  {
    if s != [] {
      match ScanSlots(s, 0, Units)
      case Some(found) =>
        if exists sp :: Canonical(sp, 0, Units) && Text(sp) == s && Total(sp, 0, Units) == n {
          var sp :| Canonical(sp, 0, Units) && Text(sp) == s && Total(sp, 0, Units) == n;
          ParseSpelling(sp);
        }
        if IsSimple(s) {
          SimpleNotComplex(s);
        }
      case None =>
        if exists sp :: Canonical(sp, 0, Units) && Text(sp) == s && Total(sp, 0, Units) == n {
          var sp :| Canonical(sp, 0, Units) && Text(sp) == s && Total(sp, 0, Units) == n;
          ParseSpelling(sp);
        }
    }
  }

  /** A non-empty token of whitespace only matches the complex grammar with every group absent. */
  lemma WhitespaceOnly(s: string)
    requires s != [] && AllOf(s, Space)
    ensures ParseTime(s) == Some(0)
  {
    var sp := Slot(None, s, Slot(None, "", Slot(None, "", Slot(None, "", End))));
    assert Text(sp) == s;
    ParseSpelling(sp);
  }

  /** The slots j..3 of a spelling whose only field is `f`, in slot k. */
  function Lone(f: Field, k: nat, j: nat): Spelling
    requires j <= 4
    decreases 4 - j
  {
    if j == 4 then End else Slot(if j == k then Some(f) else None, "", Lone(f, k, j + 1))
  }

  lemma {:induction false} LoneSpells(f: Field, k: nat, j: nat)
    requires j <= 4 && k < 4 && FieldOk(f, Units[k])
    ensures Canonical(Lone(f, k, j), j, Units)
    ensures Text(Lone(f, k, j)) == if j <= k then FieldText(f) else ""
    ensures Total(Lone(f, k, j), j, Units) == if j <= k then Value(f.digits) * ScaleAt(k) else 0
    decreases 4 - j
  {
    if j < 4 {
      LoneSpells(f, k, j + 1);
    }
  }

  /** A single field N of slot k, with any accepted spelling and any spaces before the unit, is N units. */
  lemma SingleField(f: Field, k: nat)
    requires k < 4 && FieldOk(f, Units[k])
    ensures ParseTime(FieldText(f)) == Some(Value(f.digits) * ScaleAt(k))
  {
    LoneSpells(f, k, 0);
    ParseSpelling(Lone(f, k, 0));
  }

  /**
   * A single field written with literal parts. The examples below name each token as a parameter
   * equal to its text, so the verifier does not run the scanner on the literal itself.
   */
  lemma FieldExample(s: string, f: Field, k: nat, n: nat)
    requires k < 4 && FieldOk(f, Units[k]) && FieldText(f) == s && Value(f.digits) * ScaleAt(k) == n
    ensures ParseTime(s) == Some(n)
  {
    SingleField(f, k);
  }

  /** The day example "11 days" of the bot's test suite. */
  lemma ElevenDays(s: string)
    requires s == "11 days"
    ensures ParseTime(s) == Some(950400)
  {
    FieldExample(s, Field("11", " ", "days"), 0, 950400);
  }

  /** Only the one-letter units have an upper-case form: "2H" is two hours. */
  lemma TwoHours(s: string)
    requires s == "2H"
    ensures ParseTime(s) == Some(7200)
  {
    FieldExample(s, Field("2", "", "H"), 1, 7200);
  }

  lemma TenMins(s: string)
    requires s == "10mins"
    ensures ParseTime(s) == Some(600)
  {
    FieldExample(s, Field("10", "", "mins"), 2, 600);
  }

  lemma ElevenSeconds(s: string)
    requires s == "11 seconds"
    ensures ParseTime(s) == Some(11)
  {
    FieldExample(s, Field("11", " ", "seconds"), 3, 11);
  }

  /** "1d 1h" is a day and an hour. */
  lemma DayAndHour(s: string)
    requires s == "1d 1h"
    ensures ParseTime(s) == Some(90000)
  {
    var sp := Slot(Some(Field("1", "", "d")), " ", Slot(Some(Field("1", "", "h")), "", Slot(None, "", Slot(None, "", End))));
    assert Text(sp) == s;
    assert Value("1") == 1;
    assert Total(sp, 0, Units) == 90000;
    ParseSpelling(sp);
  }

  /** "1h 1s": absent minutes count as 0. */
  lemma HourAndSecond(s: string)
    requires s == "1h 1s"
    ensures ParseTime(s) == Some(3601)
  {
    var sp := Slot(None, "", Slot(Some(Field("1", "", "h")), " ", Slot(None, "", Slot(Some(Field("1", "", "s")), "", End))));
    assert Text(sp) == s;
    assert Value("1") == 1;
    assert Total(sp, 0, Units) == 3601;
    ParseSpelling(sp);
  }

  /** A leading space is accepted before an hours field. */
  lemma SpaceThenHour(s: string)
    requires s == " 1h"
    ensures ParseTime(s) == Some(3600)
  {
    var sp := Slot(None, " ", Slot(Some(Field("1", "", "h")), "", Slot(None, "", Slot(None, "", End))));
    assert Text(sp) == s;
    assert Value("1") == 1;
    assert Total(sp, 0, Units) == 3600;
    ParseSpelling(sp);
  }

  /** A bare count of hours, reached only because the complex grammar refuses it. */
  lemma BareHours(s: string)
    requires IsSimple(s)
    ensures ParseTime(s) == Some(Value(SimpleDigits(s)) * 3600)
  {
    SimpleNotComplex(s);
  }

  /** Bare digits are hours. */
  lemma BareTen(s: string)
    requires s == "10"
    ensures ParseTime(s) == Some(36000)
  {
    assert SimpleDigits(s) == s && s[..1] == "1";
    assert Value("1") == 1 && DigitValue(s[1]) == 0;
    BareHours(s);
  }

  /** `$` lets one trailing newline through the bare-hours grammar. */
  lemma BareTenNewline(s: string)
    requires s == "10\n"
    ensures ParseTime(s) == Some(36000)
  {
    var ds := s[..2];
    assert s[2] == '\n' && ds == "10" && ds[..1] == "1";
    assert IsSimple(s) && SimpleDigits(s) == ds;
    assert Value("1") == 1 && DigitValue(ds[1]) == 0;
    assert Value(ds) == 10;
    BareHours(s);
  }

  /** A token holding a letter anywhere is no bare count of hours. */
  lemma WordNotSimple(t: string, i: nat)
    requires i < |t| && ClassOf(t[i]) == Word
    ensures !IsSimple(t)
  {
    assert !IsDigit(t[i]) && t[i] != '\n';
    if |t| > 1 && t[|t| - 1] == '\n' {
      assert i < |t| - 1 && t[..|t| - 1][i] == t[i];
    }
  }

  /** A token that starts with a letter matches neither grammar. */
  lemma LetterStart(t: string)
    requires t != [] && ClassOf(t[0]) == Word
    ensures ParseTime(t) == None
  {
    assert Span(t, Digit) == 0;
    forall j | 0 <= j < 4
      ensures ScanField(t, Units[j]) == None
    {
    }
    NoFieldFrom(t, 0, Units);
    WordNotSimple(t, 0);
  }

  /** The unit of a field of the table is a non-empty word. */
  lemma UnitWord(f: Field, k: nat, units: seq<set<string>>)
    requires TableOk(units) && k < 4 && FieldOk(f, units[k])
    ensures |f.unit| > 0 && AllOf(f.unit, Word)
  {
    assert f.unit in units[k];
  }

  /** The text of a field followed by `rest` starts with a digit and has a letter where the unit starts. */
  lemma FieldChars(f: Field, rest: string)
    requires |f.digits| > 0 && AllOf(f.digits, Digit) && |f.unit| > 0 && AllOf(f.unit, Word)
    ensures var t := FieldText(f) + rest;
      ClassOf(t[0]) == Digit && ClassOf(t[|f.digits| + |f.gap|]) == Word
  {
    var t := FieldText(f) + rest;
    assert t[0] == f.digits[0];
    assert t[|f.digits| + |f.gap|] == f.unit[0];
  }

  /** A field whose unit no slot accepts makes the whole token unrecognised. */
  lemma UnknownUnitScan(f: Field, rest: string, units: seq<set<string>>)
    requires |units| == 4 && |f.digits| > 0 && AllOf(f.digits, Digit) && AllOf(f.gap, Space)
    requires |f.unit| > 0 && AllOf(f.unit, Word) && (rest == [] || ClassOf(rest[0]) != Word)
    requires forall j :: 0 <= j < 4 ==> f.unit !in units[j]
    ensures ScanSlots(FieldText(f) + rest, 0, units) == None
  {
    var t := FieldText(f) + rest;
    forall j | 0 <= j < 4
      ensures ScanField(t, units[j]) == None
    {
      ScanFieldOf(f, rest, units[j]);
    }
    FieldChars(f, rest);
    NoFieldFrom(t, 0, units);
  }

  lemma UnknownUnit(f: Field, rest: string)
    requires |f.digits| > 0 && AllOf(f.digits, Digit) && AllOf(f.gap, Space)
    requires |f.unit| > 0 && AllOf(f.unit, Word) && (rest == [] || ClassOf(rest[0]) != Word)
    requires forall j :: 0 <= j < 4 ==> f.unit !in Units[j]
    ensures ParseTime(FieldText(f) + rest) == None
  {
    var t := FieldText(f) + rest;
    assert ScanSlots(t, 0, Units) == None by {
      UnknownUnitScan(f, rest, Units);
    }
    assert !IsSimple(t) by {
      FieldChars(f, rest);
      WordNotSimple(t, |f.digits| + |f.gap|);
    }
  }

  /** Slots before k skip a field of slot k; slot k reads it, leaving `rest`. */
  lemma ReachField(f: Field, rest: string, k: nat, units: seq<set<string>>)
    requires TableOk(units) && k < 4 && FieldOk(f, units[k]) && (rest == [] || ClassOf(rest[0]) != Word)
    ensures var t := FieldText(f) + rest;
      && (forall j :: 0 <= j < k ==> ScanField(t, units[j]) == None)
      && ReadSlot(t, k, units) == (Some(f), rest)
  {
    var t := FieldText(f) + rest;
    forall j | 0 <= j < 4
      ensures ScanField(t, units[j]) == if j == k then Some((f, rest)) else None
    {
      ScanFieldAt(f, rest, k, j, units);
    }
  }

  /** Slot k reads a field of its own and the whitespace after it; if the later slots refuse the rest, so does slot k. */
  lemma RefusedAt(f: Field, k: nat, ws: string, u: string, units: seq<set<string>>)
    requires TableOk(units) && k < 4 && FieldOk(f, units[k]) && AllOf(ws, Space)
    requires u != [] && ClassOf(u[0]) == Digit && ScanSlots(u, k + 1, units) == None
    ensures ScanSlots(FieldText(f) + (ws + u), k, units) == None
  {
    var rest := ws + u;
    assert rest == [] || ClassOf(rest[0]) != Word by {
      assert rest[0] == if ws == [] then u[0] else ws[0];
    }
    ReachField(f, rest, k, units);
    SpanOf(ws, u, Space);
    assert rest[|ws|..] == u;
  }

  /**
   * A field of slot k followed by whitespace and a text that slots after k refuse is refused: the
   * slots before k skip the field, slot k reads it and no later slot can go on.
   */
  lemma RefusedAfter(f: Field, k: nat, ws: string, u: string, units: seq<set<string>>)
    requires TableOk(units) && k < 4 && FieldOk(f, units[k]) && AllOf(ws, Space)
    requires u != [] && ClassOf(u[0]) == Digit && ScanSlots(u, k + 1, units) == None
    ensures ScanSlots(FieldText(f) + (ws + u), 0, units) == None
  {
    var t := FieldText(f) + (ws + u);
    RefusedAt(f, k, ws, u, units);
    ReachField(f, ws + u, k, units);
    UnitWord(f, k, units);
    FieldChars(f, ws + u);
    SkipTo(t, 0, k, units);
  }

  /** A token that no canonical spelling of the complex grammar writes, and that is no bare count, is refused. */
  lemma Refused(t: string)
    requires forall sp :: Canonical(sp, 0, Units) ==> Text(sp) != t
    requires !IsSimple(t)
    ensures ParseTime(t) == None
  {
    if t != [] {
      match ScanSlots(t, 0, Units)
      case None =>
      case Some(sp) =>
        assert false;
    }
  }

  /** Fields out of order are refused: a field of slot j <= k after a field of slot k. */
  lemma OutOfOrderScan(f: Field, k: nat, ws: string, g: Field, j: nat, rest: string, units: seq<set<string>>)
    requires TableOk(units) && j <= k < 4 && FieldOk(f, units[k]) && FieldOk(g, units[j]) && AllOf(ws, Space)
    requires rest == [] || ClassOf(rest[0]) != Word
    ensures ScanSlots(FieldText(f) + (ws + (FieldText(g) + rest)), 0, units) == None
  {
    var u := FieldText(g) + rest;
    forall i | k + 1 <= i < 4
      ensures ScanField(u, units[i]) == None
    {
      ScanFieldAt(g, rest, j, i, units);
    }
    UnitWord(g, j, units);
    FieldChars(g, rest);
    NoFieldFrom(u, k + 1, units);
    RefusedAfter(f, k, ws, u, units);
  }

  lemma OutOfOrderFields(f: Field, k: nat, ws: string, g: Field, j: nat, rest: string)
    requires j <= k < 4 && FieldOk(f, Units[k]) && FieldOk(g, Units[j]) && AllOf(ws, Space)
    requires rest == [] || ClassOf(rest[0]) != Word
    ensures ParseTime(FieldText(f) + (ws + (FieldText(g) + rest))) == None
  {
    var t := FieldText(f) + (ws + (FieldText(g) + rest));
    assert ScanSlots(t, 0, Units) == None by {
      UnitsOk();
      OutOfOrderScan(f, k, ws, g, j, rest, Units);
    }
    assert !IsSimple(t) by {
      UnitsOk();
      UnitWord(f, k, Units);
      FieldChars(f, ws + (FieldText(g) + rest));
      WordNotSimple(t, |f.digits| + |f.gap|);
    }
  }

  /** Digits left without a unit after a field are refused. */
  lemma UnitlessScan(f: Field, k: nat, ws: string, ds: string, units: seq<set<string>>)
    requires TableOk(units) && k < 4 && FieldOk(f, units[k]) && AllOf(ws, Space)
    requires |ds| > 0 && AllOf(ds, Digit)
    ensures ScanSlots(FieldText(f) + (ws + ds), 0, units) == None
  {
    assert ds + [] == ds;
    NoUnit(ds, [], units);
    NoFieldFrom(ds, k + 1, units);
    RefusedAfter(f, k, ws, ds, units);
  }

  lemma UnitlessTail(f: Field, k: nat, ws: string, ds: string)
    requires k < 4 && FieldOk(f, Units[k]) && AllOf(ws, Space) && |ds| > 0 && AllOf(ds, Digit)
    ensures ParseTime(FieldText(f) + (ws + ds)) == None
  {
    var t := FieldText(f) + (ws + ds);
    assert ScanSlots(t, 0, Units) == None by {
      UnitsOk();
      UnitlessScan(f, k, ws, ds, Units);
    }
    assert !IsSimple(t) by {
      UnitsOk();
      UnitWord(f, k, Units);
      FieldChars(f, ws + ds);
      WordNotSimple(t, |f.digits| + |f.gap|);
    }
  }

  /** Whitespace before a days field is refused: the days group is anchored at the start of the token. */
  lemma SpaceBeforeDaysScan(ws: string, f: Field, rest: string, units: seq<set<string>>)
    requires TableOk(units) && ws != [] && AllOf(ws, Space) && FieldOk(f, units[0])
    requires rest == [] || ClassOf(rest[0]) != Word
    ensures ScanSlots(ws + (FieldText(f) + rest), 0, units) == None
  {
    var u := FieldText(f) + rest;
    var t := ws + u;
    forall i | 1 <= i < 4
      ensures ScanField(u, units[i]) == None
    {
      ScanFieldAt(f, rest, 0, i, units);
    }
    UnitWord(f, 0, units);
    FieldChars(f, rest);
    NoFieldFrom(u, 1, units);
    assert t[0] == ws[0];
    assert Span(t, Digit) == 0;
    assert ReadSlot(t, 0, units) == (None, t);
    SpanOf(ws, u, Space);
    assert t[|ws|..] == u;
  }

  lemma SpaceBeforeDays(ws: string, f: Field, rest: string)
    requires ws != [] && AllOf(ws, Space) && FieldOk(f, Units[0]) && (rest == [] || ClassOf(rest[0]) != Word)
    ensures ParseTime(ws + (FieldText(f) + rest)) == None
  {
    var t := ws + (FieldText(f) + rest);
    assert ScanSlots(t, 0, Units) == None by {
      UnitsOk();
      SpaceBeforeDaysScan(ws, f, rest, Units);
    }
    assert !IsSimple(t) by {
      UnitsOk();
      UnitWord(f, 0, Units);
      FieldChars(f, rest);
      assert t[|ws| + |f.digits| + |f.gap|] == (FieldText(f) + rest)[|f.digits| + |f.gap|];
      WordNotSimple(t, |ws| + |f.digits| + |f.gap|);
    }
  }

  /** "asd" is no duration. */
  lemma Asd(s: string)
    requires s == "asd"
    ensures ParseTime(s) == None
  {
    LetterStart(s);
  }

  /** "1x": x is no unit. */
  lemma OneX(s: string)
    requires s == "1x"
    ensures ParseTime(s) == None
  {
    assert FieldText(Field("1", "", "x")) + "" == s;
    UnknownUnit(Field("1", "", "x"), "");
  }

  /** Long units have no upper-case form: "2Day" is refused. */
  lemma TwoDayCapital(s: string)
    requires s == "2Day"
    ensures ParseTime(s) == None
  {
    assert FieldText(Field("2", "", "Day")) + "" == s;
    UnknownUnit(Field("2", "", "Day"), "");
  }

  /** "1d 1": trailing digits without a unit are refused. */
  lemma TrailingDigits(s: string)
    requires s == "1d 1"
    ensures ParseTime(s) == None
  {
    assert FieldText(Field("1", "", "d")) + (" " + "1") == s;
    UnitlessTail(Field("1", "", "d"), 0, " ", "1");
  }

  /** "1s 1h": the fields must come in the order days, hours, minutes, seconds. */
  lemma OutOfOrder(s: string)
    requires s == "1s 1h"
    ensures ParseTime(s) == None
  {
    assert FieldText(Field("1", "", "s")) + (" " + (FieldText(Field("1", "", "h")) + "")) == s;
    OutOfOrderFields(Field("1", "", "s"), 3, " ", Field("1", "", "h"), 1, "");
  }

  /** " 1d" is refused, though " 1h" is an hour. */
  lemma SpaceThenDay(s: string)
    requires s == " 1d"
    ensures ParseTime(s) == None
  {
    assert " " + (FieldText(Field("1", "", "d")) + "") == s;
    SpaceBeforeDays(" ", Field("1", "", "d"), "");
  }
}
