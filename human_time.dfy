/** `get_human_time` (utils.py): a whole-second duration printed as its non-zero parts "Nd Nh Nm Ns". */
module TimeFormat {
  import opened Numerals

  /** A duration split into days, hours, minutes and seconds. */
  datatype Parts = Parts(days: nat, hours: nat, minutes: nat, seconds: nat)

  function Seconds(p: Parts): nat {
    p.days * 86400 + p.hours * 3600 + p.minutes * 60 + p.seconds
  }

  predicate Normal(p: Parts) {
    p.hours < 24 && p.minutes < 60 && p.seconds < 60
  }

  /** The split `get_human_time` makes with floor division and `%=`. */
  function Decompose(t: nat): (p: Parts)
    ensures Seconds(p) == t && Normal(p)
  {
    var r := t % 86400;
    Parts(t / 86400, r / 3600, r % 3600 / 60, r % 3600 % 60)
  }

  /** The printed piece of one part, if the part is non-zero. */
  function Piece(n: nat, unit: string): seq<string> {
    if n == 0 then [] else [Show(n) + unit]
  }

  /** Pieces separated by single spaces. */
  function Join(pieces: seq<string>): string {
    if pieces == [] then ""
    else if |pieces| == 1 then pieces[0]
    else pieces[0] + " " + Join(pieces[1..])
  }

  function Pieces(p: Parts): seq<string> {
    Piece(p.days, "d") + Piece(p.hours, "h") + Piece(p.minutes, "m") + Piece(p.seconds, "s")
  }

  /** The split of a duration under a minute, and of a whole number of days. */
  lemma DecomposeShort(t: nat)
    ensures t < 60 ==> Decompose(t) == Parts(0, 0, 0, t)
    ensures t % 86400 == 0 ==> Decompose(t) == Parts(t / 86400, 0, 0, 0)
  {
  }

  /** A duration under a minute, or a whole number of days, has a single piece. */
  lemma PiecesShort(t: nat)
    ensures 0 < t < 60 ==> Pieces(Decompose(t)) == [Show(t) + "s"]
    ensures t > 0 && t % 86400 == 0 ==> Pieces(Decompose(t)) == [Show(t / 86400) + "d"]
  {
    DecomposeShort(t);
    if 0 < t < 60 {
      assert Pieces(Parts(0, 0, 0, t)) == Piece(t, "s");
    }
    if t > 0 && t % 86400 == 0 {
      assert Pieces(Parts(t / 86400, 0, 0, 0)) == Piece(t / 86400, "d");
    }
  }

  /** What `get_human_time` prints for a duration of t whole seconds. */
  function HumanTime(t: nat): (r: string)
    ensures 0 < t < 60 ==> r == Show(t) + "s"
    ensures t > 0 && t % 86400 == 0 ==> r == Show(t / 86400) + "d"
  {
    PiecesShort(t);
    Join(Pieces(Decompose(t)))
  }

  lemma JoinTwo(a: string, rest: seq<string>)
    requires rest != []
    ensures Join([a] + rest) == a + " " + Join(rest)
  {
    assert ([a] + rest)[1..] == rest;
  }

  /** Appending one more piece to a joined text, as the buffer writes do: a space first when the text is not empty. */
  lemma {:induction false} JoinSnoc(pieces: seq<string>, x: string)
    ensures Join(pieces + [x]) == if pieces == [] then x else Join(pieces) + " " + x
    decreases |pieces|
  {
    if |pieces| == 1 {
      JoinTwo(pieces[0], [x]);
    } else if |pieces| > 1 {
      assert pieces + [x] == [pieces[0]] + (pieces[1..] + [x]);
      JoinTwo(pieces[0], pieces[1..] + [x]);
      JoinSnoc(pieces[1..], x);
      JoinTwo(pieces[0], pieces[1..]);
      assert [pieces[0]] + pieces[1..] == pieces;
    }
  }

  /** Writes the piece of part n after `text`, with the separating space `get_human_time` writes before it. */
  method WritePiece(text: string, ghost before: seq<string>, wroteBefore: bool, n: nat, unit: string) returns (text': string)
    requires text == Join(before) && wroteBefore == (before != [])
    ensures text' == Join(before + Piece(n, unit))
  {
    text' := text;
    if n != 0 {
      if wroteBefore {
        text' := text' + " ";
      }
      text' := text' + Show(n) + unit;
      JoinSnoc(before, Show(n) + unit);
    } else {
      assert before + [] == before;
    }
  }

  /**
   * `get_human_time`: reduces the seconds with `%=` and writes the non-zero parts, a space before each
   * part that follows another.
   */
  method GetHumanTime(elapsed: nat) returns (text: string)
    ensures text == HumanTime(elapsed)
  {
    var rest := elapsed;
    var days := rest / 86400;
    rest := rest % 86400;
    var hours := rest / 3600;
    rest := rest % 3600;
    var minutes := rest / 60;
    rest := rest % 60;
    var seconds := rest;
    text := "";
    ghost var written: seq<string> := [];
    text := WritePiece(text, written, false, days, "d");
    written := written + Piece(days, "d");
    text := WritePiece(text, written, days != 0, hours, "h");
    written := written + Piece(hours, "h");
    text := WritePiece(text, written, days != 0 || hours != 0, minutes, "m");
    written := written + Piece(minutes, "m");
    text := WritePiece(text, written, days != 0 || hours != 0 || minutes != 0, seconds, "s");
    written := written + Piece(seconds, "s");
    assert written == Pieces(Decompose(elapsed));
  }
}

/** The printed duration: its parts, when it is empty, and that `parse_time` reads it back. */
module TimeFormatProperties {
  import opened Wrappers
  import opened Numerals
  import opened TimeParser
  import opened TimeParserProperties
  import opened TimeFormat

  /** The split is the only one with hours < 24, minutes < 60 and seconds < 60. */
  lemma DecomposeUnique(t: nat, p: Parts)
    requires Seconds(p) == t && Normal(p)
    ensures p == Decompose(t)
  {
    var q := Decompose(t);
    var r := p.hours * 3600 + p.minutes * 60 + p.seconds;
    assert r < 86400;
    assert t == p.days * 86400 + r;
    assert p.days == t / 86400 && r == t % 86400;
    assert p.hours == r / 3600;
    var r2 := p.minutes * 60 + p.seconds;
    assert r2 < 3600 && r == p.hours * 3600 + r2;
    assert r2 == r % 3600;
    assert p.minutes == r2 / 60 && p.seconds == r2 % 60;
  }

  lemma JoinEmpty(pieces: seq<string>)
    requires forall i :: 0 <= i < |pieces| ==> pieces[i] != []
    ensures Join(pieces) == [] <==> pieces == []
  {
    if |pieces| > 1 {
      assert |Join(pieces)| >= |pieces[0]|;
    }
  }

  lemma PiecesNonEmpty(p: Parts)
    ensures forall i :: 0 <= i < |Pieces(p)| ==> Pieces(p)[i] != []
    ensures Pieces(p) == [] <==> p.days == 0 && p.hours == 0 && p.minutes == 0 && p.seconds == 0
  {
    var ps := Pieces(p);
    forall i | 0 <= i < |ps|
      ensures ps[i] != []
    {
    }
  }

  /** Nothing is printed exactly for a zero duration. */
  lemma HumanTimeEmpty(t: nat)
    ensures HumanTime(t) == "" <==> t == 0
  {
    var p := Decompose(t);
    PiecesNonEmpty(p);
    JoinEmpty(Pieces(p));
    ZeroParts(p);
  }

  /** A split stands for no time exactly when every part is 0. */
  lemma ZeroParts(p: Parts)
    ensures Seconds(p) == 0 <==> p.days == 0 && p.hours == 0 && p.minutes == 0 && p.seconds == 0
  {
  }

  /** The field `parse_time` sees for a printed part: no spaces between the number and its unit. */
  function FieldOf(n: nat, unit: string): Option<Field> {
    if n == 0 then None else Some(Field(Show(n), "", unit))
  }

  /** The texts of the present fields, in order. */
  function Present(fields: seq<Option<Field>>): seq<string> {
    if fields == [] then []
    else (if fields[0].Some? then [FieldText(fields[0].value)] else []) + Present(fields[1..])
  }

  /** The spelling with one space between consecutive present fields and no other whitespace. */
  function Layout(fields: seq<Option<Field>>): Spelling {
    if fields == [] then End
    else
      var gap := if fields[0].Some? && Present(fields[1..]) != [] then " " else "";
      Slot(fields[0], gap, Layout(fields[1..]))
  }

  lemma {:induction false} LayoutText(fields: seq<Option<Field>>)
    ensures Text(Layout(fields)) == Join(Present(fields))
  {
    if fields != [] {
      var rest := Present(fields[1..]);
      LayoutText(fields[1..]);
      if fields[0].Some? {
        var x := FieldText(fields[0].value);
        if rest != [] {
          JoinTwo(x, rest);
        } else {
          assert Present(fields) == [x];
        }
      } else {
        assert Present(fields) == rest;
      }
    }
  }

  /** Whether each present field uses the units of its slot, counted from slot k. */
  predicate FieldsOk(fields: seq<Option<Field>>, k: nat, units: seq<set<string>>)
    requires |units| == 4 && k + |fields| <= 4
  {
    forall i :: 0 <= i < |fields| && fields[i].Some? ==> FieldOk(fields[i].value, units[k + i])
  }

  /** The seconds the present fields stand for, counted from slot k. */
  function FieldsTotal(fields: seq<Option<Field>>, k: nat, units: seq<set<string>>): nat
    requires |units| == 4 && k + |fields| <= 4 && FieldsOk(fields, k, units)
    decreases |fields|
  {
    if fields == [] then 0
    else
      assert FieldsOk(fields[1..], k + 1, units) by {
        forall i | 0 <= i < |fields| - 1 && fields[1..][i].Some?
          ensures FieldOk(fields[1..][i].value, units[k + 1 + i])
        {
          assert fields[1..][i] == fields[i + 1];
        }
      }
      (if fields[0].Some? then Value(fields[0].value.digits) * ScaleAt(k) else 0) + FieldsTotal(fields[1..], k + 1, units)
  }

  lemma {:induction false} LayoutSpells(fields: seq<Option<Field>>, k: nat, units: seq<set<string>>)
    requires |units| == 4 && k + |fields| == 4 && FieldsOk(fields, k, units)
    ensures Canonical(Layout(fields), k, units)
    ensures Total(Layout(fields), k, units) == FieldsTotal(fields, k, units)
    decreases |fields|
  {
    if fields != [] {
      assert FieldsOk(fields[1..], k + 1, units) by {
        forall i | 0 <= i < |fields| - 1 && fields[1..][i].Some?
          ensures FieldOk(fields[1..][i].value, units[k + 1 + i])
        {
          assert fields[1..][i] == fields[i + 1];
        }
      }
      LayoutSpells(fields[1..], k + 1, units);
      assert fields[0].Some? ==> FieldOk(fields[0].value, units[k]);
    }
  }

  /** The four fields of a printed duration. */
  function HumanFields(p: Parts): seq<Option<Field>> {
    [FieldOf(p.days, "d"), FieldOf(p.hours, "h"), FieldOf(p.minutes, "m"), FieldOf(p.seconds, "s")]
  }

  lemma FieldPiece(n: nat, unit: string)
    ensures Present([FieldOf(n, unit)]) == Piece(n, unit)
  {
    if n != 0 {
      assert Show(n) + "" + unit == Show(n) + unit;
    }
  }

  lemma {:induction false} PresentConcat(a: seq<Option<Field>>, b: seq<Option<Field>>)
    ensures Present(a + b) == Present(a) + Present(b)
    decreases |a|
  {
    if a != [] {
      assert (a + b)[1..] == a[1..] + b;
      PresentConcat(a[1..], b);
    } else {
      assert a + b == b;
    }
  }

  lemma HumanPieces(p: Parts)
    ensures Present(HumanFields(p)) == Pieces(p)
  {
    var d, h, m, sec := [FieldOf(p.days, "d")], [FieldOf(p.hours, "h")], [FieldOf(p.minutes, "m")], [FieldOf(p.seconds, "s")];
    assert HumanFields(p) == d + (h + (m + sec));
    PresentConcat(m, sec);
    PresentConcat(h, m + sec);
    PresentConcat(d, h + (m + sec));
    FieldPiece(p.days, "d");
    FieldPiece(p.hours, "h");
    FieldPiece(p.minutes, "m");
    FieldPiece(p.seconds, "s");
  }

  lemma HumanFieldsOk(p: Parts)
    ensures FieldsOk(HumanFields(p), 0, Units)
  {
    var fs := HumanFields(p);
    forall i | 0 <= i < 4 && fs[i].Some?
      ensures FieldOk(fs[i].value, Units[i])
    {
      DigitsAre(fs[i].value.digits);
    }
  }

  lemma HumanFieldsAre(p: Parts)
    ensures FieldsOk(HumanFields(p), 0, Units)
    ensures FieldsTotal(HumanFields(p), 0, Units) == Seconds(p)
  {
    var fs := HumanFields(p);
    HumanFieldsOk(p);
    assert fs[1..][1..][1..][1..] == [];
    assert FieldsTotal(fs[1..][1..][1..], 3, Units) == p.seconds;
    assert FieldsTotal(fs[1..][1..], 2, Units) == p.minutes * 60 + p.seconds;
    assert FieldsTotal(fs[1..], 1, Units) == p.hours * 3600 + p.minutes * 60 + p.seconds;
  }

  /** `parse_time` reads every printed non-zero duration back as the same number of seconds. */
  lemma HumanTimeRoundTrip(t: nat)
    requires t > 0
    ensures ParseTime(HumanTime(t)) == Some(t)
  {
    var p := Decompose(t);
    var fs := HumanFields(p);
    HumanFieldsAre(p);
    HumanPieces(p);
    UnitsOk();
    LayoutSpells(fs, 0, Units);
    LayoutText(fs);
    HumanTimeEmpty(t);
    ParseSpelling(Layout(fs));
  }

  lemma {:induction false} JoinEnds(pieces: seq<string>)
    requires pieces != [] && forall i :: 0 <= i < |pieces| ==> pieces[i] != []
    ensures Join(pieces) != [] && Join(pieces)[0] == pieces[0][0]
    ensures Join(pieces)[|Join(pieces)| - 1] == pieces[|pieces| - 1][|pieces[|pieces| - 1]| - 1]
    decreases |pieces|
  {
    if |pieces| > 1 {
      assert pieces[1..][|pieces[1..]| - 1] == pieces[|pieces| - 1];
      JoinEnds(pieces[1..]);
    }
  }

  predicate UnitLetter(c: char) {
    c == 'd' || c == 'h' || c == 'm' || c == 's'
  }

  lemma PiecesEnds(p: Parts)
    ensures forall i :: 0 <= i < |Pieces(p)| ==>
      Pieces(p)[i] != [] && IsDigit(Pieces(p)[i][0]) && UnitLetter(Pieces(p)[i][|Pieces(p)[i]| - 1])
  {
  }

  /** A printed duration starts with a digit and ends with a unit letter: no leading or trailing space. */
  lemma HumanTimeEnds(t: nat)
    requires t > 0
    ensures var text := HumanTime(t);
      text != [] && IsDigit(text[0]) && UnitLetter(text[|text| - 1])
  {
    var p := Decompose(t);
    PiecesNonEmpty(p);
    PiecesEnds(p);
    JoinEnds(Pieces(p));
  }

  lemma OneHour(t: nat)
    requires t == 3600
    ensures HumanTime(t) == "1h"
  {
    assert Decompose(t) == Parts(0, 1, 0, 0);
    assert Show(1) + "h" == "1h";
    assert Pieces(Parts(0, 1, 0, 0)) == ["1h"];
  }

  lemma DayHourSecond(t: nat)
    requires t == 90061
    ensures HumanTime(t) == "1d 1h 1m 1s"
  {
    assert Decompose(t) == Parts(1, 1, 1, 1);
    assert Show(1) + "d" == "1d" && Show(1) + "h" == "1h" && Show(1) + "m" == "1m" && Show(1) + "s" == "1s";
    var ps := Pieces(Parts(1, 1, 1, 1));
    assert ps == ["1d", "1h", "1m", "1s"];
    assert ps[1..][1..][1..] == ["1s"] && ps[1..][1..] == ["1m", "1s"] && ps[1..] == ["1h", "1m", "1s"];
  }
}
