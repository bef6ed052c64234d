/**
 * `parse_doctors`, identical in app.py and check_doctors.py: a comma-separated
 * list of doctors, each optionally followed by a specialty in parentheses,
 * becomes a list of `Doctor` records. Empty entries are skipped.
 */
module Doctors {
  import opened Wrappers
  import opened PyStr

  /** The `Doctor` record: a name to search for and an optional specialty filter. */
  datatype Doctor = Doctor(name: String, specialty: Option<String>)

  /** One entry, already stripped: with both `(` and `)` the name is the
      trimmed text before the first `(` and the specialty the trimmed text
      between the first `(` and the first `)`; anything after that `)` is
      dropped. Otherwise the whole entry is the name. */
  function ParseEntry(entry: String): Doctor {
    if '(' in entry && ')' in entry then
      var open := IndexOf(entry, '(');
      var close := IndexOf(entry, ')');
      Doctor(Strip(entry[..open]), Some(Strip(Slice(entry, open + 1, close))))
    else
      Doctor(entry, None)
  }

  /** What a parsed entry looks like: without both parentheses the entry is the
      name; with them, a trimmed name free of `(` and a trimmed specialty free
      of `)`. Neither gains a comma the entry did not have. */
  lemma ParseEntryShape(entry: String)
    ensures '(' !in entry || ')' !in entry ==> ParseEntry(entry) == Doctor(entry, None)
    ensures '(' in entry && ')' in entry ==>
      var d := ParseEntry(entry);
      d.specialty.Some? && Trimmed(d.name) && Trimmed(d.specialty.value)
      && '(' !in d.name && ')' !in d.specialty.value
    ensures ',' !in entry ==>
      var d := ParseEntry(entry);
      ',' !in d.name && (d.specialty.Some? ==> ',' !in d.specialty.value)
  {
    if '(' in entry && ')' in entry {
      var open := IndexOf(entry, '(');
      var close := IndexOf(entry, ')');
      var inner := Slice(entry, open + 1, close);
      var name := entry[..open];
      IndexOfFirst(entry, '(');
      IndexOfFirst(entry, ')');
      if open + 1 <= close {
        assert forall k | 0 <= k < |inner| :: inner[k] == entry[open + 1 + k];
      }
      StripKeepsOut(name, '(');
      StripKeepsOut(inner, ')');
      if ',' !in entry {
        StripKeepsOut(name, ',');
        StripKeepsOut(inner, ',');
      }
    }
  }

  /** The doctors one comma-separated piece contributes: none when it is blank. */
  function PieceDoctors(piece: String): (ds: seq<Doctor>)
    ensures |ds| <= 1
    ensures ds == [] <==> AllSpace(piece)
  {
    StripEmptyIff(piece);
    var entry := Strip(piece);
    if entry == [] then [] else [ParseEntry(entry)]
  }

  /** The doctors of a list of pieces, in order. */
  function Entries(pieces: seq<String>): (ds: seq<Doctor>)
    ensures |ds| <= |pieces|
  {
    if pieces == [] then []
    else Entries(pieces[..|pieces| - 1]) + PieceDoctors(pieces[|pieces| - 1])
  }

  /** What `parse_doctors(doctor_input)` returns. */
  function ParseDoctors(input: String): (ds: seq<Doctor>)
  {
    Entries(Split(input, ','))
  }

  /** One more piece adds its doctor, if it is not blank. */
  lemma EntriesSnoc(pieces: seq<String>, i: nat)
    requires i < |pieces|
    ensures var entry := Strip(pieces[i]);
      Entries(pieces[..i + 1]) == Entries(pieces[..i]) + (if entry == [] then [] else [ParseEntry(entry)])
  {
    assert pieces[..i + 1][..i] == pieces[..i];
  }

  /** `parse_doctors`: the loop over the comma-separated pieces. */
  method ParseDoctorList(input: String) returns (doctors: seq<Doctor>)
    ensures doctors == ParseDoctors(input)
  {
    var pieces := Split(input, ',');
    doctors := [];
    var i := 0;
    while i < |pieces|
      invariant 0 <= i <= |pieces|
      invariant doctors == Entries(pieces[..i])
    {
      EntriesSnoc(pieces, i);
      var entry := Strip(pieces[i]);
      if entry != [] {
        doctors := doctors + [ParseEntry(entry)];
      }
      i := i + 1;
    }
    assert pieces[..|pieces|] == pieces;
  }

  /** The doctors of a file given with `--file`: its lines become the
      comma-separated entries. */
  function FileDoctors(contents: String): seq<Doctor> {
    ParseDoctors(Replace(contents, "\n", ","))
  }

  /** A file whose lines hold no comma lists one doctor per non-blank line,
      in order. */
  lemma FileLines(lines: seq<String>)
    requires lines != []
    requires forall i | 0 <= i < |lines| :: '\n' !in lines[i] && ',' !in lines[i]
    ensures FileDoctors(Join(lines, "\n")) == Entries(lines)
  {
    ReplaceJoin(lines, '\n', ',');
    SplitJoin(lines, ',');
  }

  /** What a front end's loop over the parsed doctors collects: the result
      `f` gives for each doctor, in order. */
  function ForEach<R>(doctors: seq<Doctor>, f: Doctor -> R): (rs: seq<R>)
    ensures |rs| == |doctors|
  {
    if doctors == [] then []
    else ForEach(doctors[..|doctors| - 1], f) + [f(doctors[|doctors| - 1])]
  }

  /** The result at each position is the result for the doctor there. */
  lemma {:induction false} ForEachAt<R>(doctors: seq<Doctor>, f: Doctor -> R, i: nat)
    requires i < |doctors|
    ensures ForEach(doctors, f)[i] == f(doctors[i])
  {
    var last := |doctors| - 1;
    if i < last {
      ForEachAt(doctors[..last], f, i);
    }
  }

  // ---------------------------------------------------------------------------
  // Properties
  // ---------------------------------------------------------------------------

  /** What every parsed doctor looks like: a trimmed name and specialty, neither
      holding a comma. */
  predicate WellFormed(d: Doctor) {
    Trimmed(d.name) && ',' !in d.name
    && (d.specialty.Some? ==> Trimmed(d.specialty.value) && ',' !in d.specialty.value)
  }

  lemma {:induction false} EntriesWellFormed(pieces: seq<String>)
    requires forall i | 0 <= i < |pieces| :: ',' !in pieces[i]
    ensures forall k | 0 <= k < |Entries(pieces)| :: WellFormed(Entries(pieces)[k])
  {
    if pieces != [] {
      EntriesWellFormed(pieces[..|pieces| - 1]);
      var entry := Strip(pieces[|pieces| - 1]);
      StripKeepsOut(pieces[|pieces| - 1], ',');
      ParseEntryShape(entry);
    }
  }

  /** Every parsed name and specialty is trimmed and free of commas. */
  lemma ParsedDoctorsWellFormed(input: String)
    ensures forall k | 0 <= k < |ParseDoctors(input)| :: WellFormed(ParseDoctors(input)[k])
  {
    EntriesWellFormed(Split(input, ','));
  }

  lemma {:induction false} EntriesConcat(ps: seq<String>, qs: seq<String>)
    ensures Entries(ps + qs) == Entries(ps) + Entries(qs)
    decreases |qs|
  {
    if qs == [] {
      assert ps + qs == ps;
    } else {
      var n := |qs| - 1;
      assert (ps + qs)[..|ps + qs| - 1] == ps + qs[..n];
      EntriesConcat(ps, qs[..n]);
    }
  }

  lemma {:induction false} JoinAppend(ps: seq<String>, qs: seq<String>, c: char)
    requires |ps| >= 1 && |qs| >= 1
    ensures Join(ps + qs, [c]) == Join(ps, [c]) + [c] + Join(qs, [c])
    decreases |ps|
  {
    if |ps| == 1 {
      assert (ps + qs)[1..] == qs;
    } else {
      assert (ps + qs)[1..] == ps[1..] + qs;
      JoinAppend(ps[1..], qs, c);
    }
  }

  /** Splitting on a separator placed between two texts splits each on its own. */
  lemma SplitAppend(a: String, b: String, c: char)
    ensures Split(a + [c] + b, c) == Split(a, c) + Split(b, c)
  {
    var ps := Split(a, c);
    var qs := Split(b, c);
    JoinAppend(ps, qs, c);
    SplitUnique(Split(a + [c] + b, c), ps + qs, c);
  }

  /** Entries keep the order of the input: parsing two lists joined by a comma
      parses each list and concatenates the results. */
  lemma ParseDoctorsConcat(a: String, b: String)
    ensures ParseDoctors(a + "," + b) == ParseDoctors(a) + ParseDoctors(b)
  {
    SplitAppend(a, b, ',');
    EntriesConcat(Split(a, ','), Split(b, ','));
  }

  /** Text with no comma and nothing but whitespace yields no doctor. */
  lemma BlankInputIsEmpty(s: String)
    requires AllSpace(s)
    ensures ParseDoctors(s) == []
  {
    assert ',' !in s by {
      assert forall k | 0 <= k < |s| :: IsSpace(s[k]);
    }
    SplitJoin([s], ',');
    assert Entries([s]) == Entries([]) + PieceDoctors(s);
  }

  /** When the first `)` comes before the first `(`, the specialty is empty. */
  lemma ClosingBeforeOpening(entry: String)
    requires '(' in entry && ')' in entry
    requires IndexOf(entry, ')') < IndexOf(entry, '(')
    ensures ParseEntry(entry).specialty == Some([])
  {
  }

  /** Text after the first `(` and `)` of an entry does not change its doctor. */
  lemma TrailingTextIgnored(entry: String, tail: String)
    requires '(' in entry && ')' in entry
    ensures ParseEntry(entry + tail) == ParseEntry(entry)
  {
    var s := entry + tail;
    IndexOfConcat(entry, tail, '(');
    IndexOfConcat(entry, tail, ')');
    var open := IndexOf(entry, '(');
    var close := IndexOf(entry, ')');
    assert s[..open] == entry[..open];
    if open + 1 <= close {
      assert s[open + 1..close] == entry[open + 1..close];
    }
  }

  // ---------------------------------------------------------------------------
  // Round trip
  // ---------------------------------------------------------------------------

  /** The entry a user types for a doctor: `Name` or `Name (Specialty)`. */
  function RenderEntry(d: Doctor): String {
    match d.specialty
    case None => d.name
    case Some(s) => d.name + " (" + s + ")"
  }

  /** A doctor whose entry reads back as itself: a non-empty trimmed name and a
      trimmed specialty, neither holding a comma or a parenthesis. */
  predicate Renderable(d: Doctor) {
    d.name != [] && Trimmed(d.name) && ',' !in d.name && '(' !in d.name && ')' !in d.name
    && (d.specialty.Some? ==>
          var s := d.specialty.value;
          Trimmed(s) && ',' !in s && '(' !in s && ')' !in s)
  }

  /** The entries a user types for a list of doctors, one per doctor. */
  function RenderAll(ds: seq<Doctor>): (es: seq<String>)
    ensures |es| == |ds|
  {
    seq(|ds|, i requires 0 <= i < |ds| => RenderEntry(ds[i]))
  }

  /** The doctor list a user types: the entries joined by commas. */
  function RenderDoctors(ds: seq<Doctor>): String {
    Join(RenderAll(ds), [','])
  }

  /** Where the parentheses of a rendered entry stand. */
  lemma RenderedParentheses(n: String, s: String)
    requires '(' !in n && ')' !in n && ')' !in s
    ensures IndexOf(n + " (" + s + ")", '(') == |n| + 1
    ensures IndexOf(n + " (" + s + ")", ')') == |n| + 2 + |s|
  {
    AppendAssoc(n + " (", s, ")");
    OpeningAt(n, s + ")");
    ClosingAt(n, s);
  }

  lemma AppendAssoc(a: String, b: String, c: String)
    ensures a + b + c == a + (b + c)
  {
  }

  lemma OpeningAt(n: String, rest: String)
    requires '(' !in n
    ensures IndexOf(n + " (" + rest, '(') == |n| + 1
  {
    assert n + " (" + rest == n + (" (" + rest);
    IndexOfConcat(" (", rest, '(');
    IndexOfConcat(n, " (" + rest, '(');
  }

  lemma ClosingAt(n: String, s: String)
    requires ')' !in n && ')' !in s
    ensures IndexOf(n + " (" + s + ")", ')') == |n| + 2 + |s|
  {
    var front := n + " (" + s;
    assert ')' !in front;
    IndexOfConcat(front, ")", ')');
  }

  /** `ParseEntry` on an entry holding both parentheses, at known positions. */
  lemma ParseEntryAt(entry: String, open: nat, close: nat)
    requires '(' in entry && ')' in entry
    requires IndexOf(entry, '(') == open && IndexOf(entry, ')') == close
    ensures ParseEntry(entry) == Doctor(Strip(entry[..open]), Some(Strip(Slice(entry, open + 1, close))))
  {
  }

  lemma ParseWithSpecialty(n: String, s: String)
    requires n != [] && Trimmed(n) && '(' !in n && ')' !in n
    requires Trimmed(s) && '(' !in s && ')' !in s
    ensures ParseEntry(n + " (" + s + ")") == Doctor(n, Some(s))
  {
    var e := n + " (" + s + ")";
    RenderedParentheses(n, s);
    var open := |n| + 1;
    var close := |n| + 2 + |s|;
    assert e[open] == '(' && e[close] == ')';
    ParseEntryAt(e, open, close);
    assert e[..open] == n + " ";
    NameBeforeBlank(n);
    assert e[open + 1..close] == s;
    StripTrimmed(s);
  }

  lemma NameBeforeBlank(n: String)
    requires Trimmed(n)
    ensures Strip(n + " ") == n
  {
    StripPadded([], n, " ");
    assert [] + n + " " == n + " ";
  }


  lemma ParseRenderedEntry(d: Doctor)
    requires Renderable(d)
    ensures ',' !in RenderEntry(d)
    ensures PieceDoctors(RenderEntry(d)) == [d]
  {
    var e := RenderEntry(d);
    var n := d.name;
    if d.specialty.Some? {
      var s := d.specialty.value;
      RenderedWithSpecialty(n, s);
      ParseWithSpecialty(n, s);
    }
    StripTrimmed(e);
  }

  /** An entry with a specialty is non-empty, trimmed and free of commas. */
  lemma RenderedWithSpecialty(n: String, s: String)
    requires n != [] && Trimmed(n) && ',' !in n && ',' !in s
    ensures var e := n + " (" + s + ")";
      e != [] && Trimmed(e) && ',' !in e
  {
    var e := n + " (" + s + ")";
    assert e[0] == n[0] && e[|e| - 1] == ')';
  }

  /** Pieces that each yield one known doctor yield those doctors, in order. */
  lemma {:induction false} EntriesOfPieces(ps: seq<String>, ds: seq<Doctor>)
    requires |ps| == |ds|
    requires forall i | 0 <= i < |ps| :: PieceDoctors(ps[i]) == [ds[i]]
    ensures Entries(ps) == ds
  {
    if ps != [] {
      var n := |ps| - 1;
      EntriesOfPieces(ps[..n], ds[..n]);
      assert ds == ds[..n] + [ds[n]];
    }
  }

  /** The empty input yields no doctor. */
  lemma ParseEmpty()
    ensures ParseDoctors([]) == []
  {
    assert Split([], ',') == [[]];
    assert Entries([[]]) == Entries([]) + PieceDoctors([]);
  }

  /** Parsing undoes rendering: a list of renderable doctors written as
      `Name (Specialty)` entries joined by commas parses back to itself. */
  lemma ParseRender(ds: seq<Doctor>)
    requires forall k | 0 <= k < |ds| :: Renderable(ds[k])
    ensures ParseDoctors(RenderDoctors(ds)) == ds
  {
    if ds == [] {
      ParseEmpty();
    } else {
      var ps := RenderAll(ds);
      forall i | 0 <= i < |ps|
        ensures ',' !in ps[i] && PieceDoctors(ps[i]) == [ds[i]]
      {
        ParseRenderedEntry(ds[i]);
      }
      SplitJoin(ps, ',');
      EntriesOfPieces(ps, ds);
    }
  }
}
