/** The .vlist project files of the configuration flow: the first two lines are a header,
    every other line is split at ';' and, when it has at least six fields, names one
    variable: project;name;type;uid;offset;length[;parent type family[;history id]].
    The three loaders of config_flow.py (async_step_vlist_select, reload_from_vlist and
    async_step_add_entity_from_vlist) run the same loop over the lines; they differ only in
    which fields of the record they keep, so one Entry carries them all. */
module Vlist {
  import opened Bytes
  import opened Errors
  import opened PyText

  /** One variable of a .vlist file. */
  datatype Entry = Entry(project: string, uid: int, typeName: string, offset: int, length: int,
                         parentTypeFamily: string, historyId: Option<string>)

  /** `int(text) if text else default`: an empty field takes the default. */
  function FieldOr(text: string, default: int): (r: Option<int>)
    ensures text == [] ==> r == Some(default)
    ensures text != [] ==> r == ParseInt(text, 10)
  {
    if text == [] then Some(default) else ParseInt(text, 10)
  }

  /** An empty field reads as the default, and a field holding the decimal text of a number
      reads as that number whatever the default. */
  lemma FieldOrDecimal(n: int, default: int)
    ensures FieldOr("", default) == Some(default)
    ensures FieldOr(DecimalString(n), default) == Some(n)
  {
    ParseDecimalString(n);
  }

  /** The fields of a line: the line stripped of surrounding whitespace, split at ';'. */
  function Fields(line: string): seq<string>
  {
    Split(Strip(line), ';')
  }

  /** What the fields of one line contribute: nothing when there are fewer than six,
      otherwise the name (field 1 without any '$') and its entry, or the ValueError of
      int(). */
  function ParseFields(parts: seq<string>): (r: Result<Option<(string, Entry)>>)
    ensures |parts| < 6 <==> r == Ok(None)
    ensures r.Err? ==> r.error == InvalidLiteral
    ensures r.Ok? && r.value.Some? ==> '$' !in r.value.value.0
  {
    if |parts| < 6 then Ok(None)
    else
      var name := RemoveChar(parts[1], '$');
      match (ParseInt(parts[3], 10), FieldOr(parts[4], 0), FieldOr(parts[5], 1))
      case (Some(uid), Some(offset), Some(length)) =>
        Ok(Some((name, Entry(parts[0], uid, StripChar(parts[2], '$'), offset, length,
                             if |parts| > 6 then parts[6] else "none",
                             if |parts| > 7 then Some(parts[7]) else None))))
      case _ => Err(InvalidLiteral)
  }

  /** What one line contributes. */
  function ParseLine(line: string): (r: Result<Option<(string, Entry)>>)
    ensures |Fields(line)| < 6 <==> r == Ok(None)
  {
    ParseFields(Fields(line))
  }

  /** What a line parses to. */
  type Parsed = Result<Option<(string, Entry)>>

  /** The dictionary the loop has built and whether int() stopped it. */
  datatype Load = Load(table: map<string, Entry>, failed: bool)

  /** One pass of the loop body, given what its line parsed to. */
  function Step(prev: Load, parsed: Parsed): Load
  {
    if prev.failed then prev
    else
      match parsed
      case Err(_) => Load(prev.table, true)
      case Ok(None) => prev
      case Ok(Some((name, e))) => Load(prev.table[name := e], false)
  }

  /** The loop over the parsed lines, one pass each: a later line with the same name
      replaces the entry of an earlier one, and the first line int() refuses ends the loop
      with the entries read so far. */
  function Run(ps: seq<Parsed>): Load
  {
    if ps == [] then Load(map[], false)
    else Step(Run(ps[..|ps| - 1]), ps[|ps| - 1])
  }

  /** Every line, parsed by parse. */
  function Parses(lines: seq<string>, parse: string -> Parsed): (r: seq<Parsed>)
    ensures |r| == |lines|
  {
    if lines == [] then [] else [parse(lines[0])] + Parses(lines[1..], parse)
  }

  /** The loop over the variable lines. */
  function Collect(lines: seq<string>): Load
  {
    Run(Parses(lines, ParseLine))
  }

  /** The lines after the two header lines (`lines[2:]`). */
  function Body(lines: seq<string>): (r: seq<string>)
    ensures |lines| <= 2 ==> r == []
    ensures |lines| > 2 ==> r == lines[2..]
  {
    Slice(lines, 2, |lines|)
  }

  /** What a loader makes of the lines of a file. */
  function LoadVlist(lines: seq<string>): Load
  {
    Collect(Body(lines))
  }

  // ---------------------------------------------------------------- the loop on parsed lines

  /** The i-th parsed line is the i-th line parsed. */
  lemma {:induction false} ParsesAt(lines: seq<string>, parse: string -> Parsed, i: nat)
    requires i < |lines|
    ensures Parses(lines, parse)[i] == parse(lines[i])
  {
    if i > 0 {
      ParsesAt(lines[1..], parse, i - 1);
    }
  }

  /** Parsing goes line by line. */
  lemma {:induction false} ParsesAppend(a: seq<string>, b: seq<string>, parse: string -> Parsed)
    ensures Parses(a + b, parse) == Parses(a, parse) + Parses(b, parse)
  {
    if a == [] {
      assert a + b == b;
    } else {
      assert (a + b)[0] == a[0] && (a + b)[1..] == a[1..] + b;
      ParsesAppend(a[1..], b, parse);
    }
  }

  /** Parsing a prefix gives a prefix of the parsed lines. */
  lemma ParsesPrefix(lines: seq<string>, parse: string -> Parsed, k: nat)
    requires k <= |lines|
    ensures Parses(lines[..k], parse) == Parses(lines, parse)[..k]
  {
    assert lines == lines[..k] + lines[k..];
    ParsesAppend(lines[..k], lines[k..], parse);
  }

  /** One more parsed line is one more pass of the loop body. */
  lemma RunSnoc(ps: seq<Parsed>, p: Parsed)
    ensures Run(ps + [p]) == Step(Run(ps), p)
  {
    assert (ps + [p])[..|ps|] == ps;
  }

  /** The loop state after one more parsed line. */
  lemma RunNext(ps: seq<Parsed>, i: nat)
    requires i < |ps|
    ensures Run(ps[..i + 1]) == Step(Run(ps[..i]), ps[i])
  {
    assert ps[..i + 1][..i] == ps[..i];
  }

  /** Once int() has stopped the loop, the lines after the failing one change nothing. */
  lemma {:induction false} RunStopped(ps: seq<Parsed>, k: nat)
    requires k <= |ps| && Run(ps[..k]).failed
    ensures Run(ps) == Run(ps[..k])
    decreases |ps| - k
  {
    if k < |ps| {
      RunSnoc(ps[..k], ps[k]);
      assert ps[..k] + [ps[k]] == ps[..k + 1];
      RunStopped(ps, k + 1);
    } else {
      assert ps[..k] == ps;
    }
  }

  /** A line that gives nothing is skipped: it changes nothing wherever it stands. */
  lemma {:induction false} RunSkips(a: seq<Parsed>, b: seq<Parsed>)
    ensures Run(a + [Ok(None)] + b) == Run(a + b)
    decreases |b|
  {
    if b == [] {
      assert a + [Ok(None)] + b == a + [Ok(None)];
      assert a + b == a;
      RunSnoc(a, Ok(None));
    } else {
      var c, x := b[..|b| - 1], b[|b| - 1];
      RunSkips(a, c);
      assert a + [Ok(None)] + b == (a + [Ok(None)] + c) + [x];
      assert a + b == (a + c) + [x];
      RunSnoc(a + [Ok(None)] + c, x);
      RunSnoc(a + c, x);
    }
  }

  /** A parsed line that does not name `name` leaves its entry alone. */
  lemma StepKeeps(prev: Load, p: Parsed, name: string)
    requires !prev.failed && name in prev.table && p.Ok?
    requires p.value.Some? ==> p.value.value.0 != name
    ensures !Step(prev, p).failed && name in Step(prev, p).table
    ensures Step(prev, p).table[name] == prev.table[name]
  {
  }

  /** The entry of the last line with a name is the one kept, provided no later line stops
      the loop. */
  lemma {:induction false} RunLastWins(a: seq<Parsed>, name: string, e: Entry, b: seq<Parsed>)
    requires !Run(a).failed
    requires forall i :: 0 <= i < |b| ==> b[i].Ok?
    requires forall i :: 0 <= i < |b| ==> b[i].value.Some? ==> b[i].value.value.0 != name
    ensures var r := Run(a + [Ok(Some((name, e)))] + b);
      !r.failed && name in r.table && r.table[name] == e
    decreases |b|
  {
    var p: Parsed := Ok(Some((name, e)));
    if b == [] {
      assert a + [p] + b == a + [p];
      RunSnoc(a, p);
    } else {
      var c, x := b[..|b| - 1], b[|b| - 1];
      RunLastWins(a, name, e, c);
      assert a + [p] + b == (a + [p] + c) + [x];
      RunSnoc(a + [p] + c, x);
      StepKeeps(Run(a + [p] + c), x, name);
    }
  }

  /** An entry after one pass of the loop body was put there by that line or was there
      before. */
  lemma StepOrigin(prev: Load, p: Parsed, name: string)
    requires name in Step(prev, p).table
    ensures || p == Ok(Some((name, Step(prev, p).table[name])))
            || (name in prev.table && Step(prev, p).table[name] == prev.table[name])
  {
  }

  /** Every entry of the table was put there by a parsed line carrying it. */
  lemma {:induction false} RunOrigin(ps: seq<Parsed>, name: string)
    requires name in Run(ps).table
    ensures exists i :: 0 <= i < |ps| && ps[i] == Ok(Some((name, Run(ps).table[name])))
  {
    assert ps != [];
    var c, last := ps[..|ps| - 1], |ps| - 1;
    var entry := Run(ps).table[name];
    StepOrigin(Run(c), ps[last], name);
    if ps[last] != Ok(Some((name, entry))) {
      RunOrigin(c, name);
      var i :| 0 <= i < |c| && c[i] == Ok(Some((name, entry)));
      assert ps[i] == c[i];
    }
  }

  // ---------------------------------------------------------------- the loop on lines

  /** The body of the loader loop for one line: split it, skip it when it has fewer than
      six fields, otherwise store its record under its name; stop is set when int() raises. */
  method Pass(table: map<string, Entry>, line: string) returns (next: map<string, Entry>, stop: bool)
    ensures Load(next, stop) == Step(Load(table, false), ParseLine(line))
  {
    var parsed := ParseLine(line);
    match parsed
    case Err(_) =>
      next, stop := table, true;
    case Ok(None) =>
      next, stop := table, false;
    case Ok(Some((name, e))) =>
      next, stop := table[name := e], false;
  }

  /** The loader loop as config_flow.py runs it over `lines[2:]`. */
  method ReadVlist(lines: seq<string>) returns (table: map<string, Entry>, failed: bool)
    ensures Load(table, failed) == LoadVlist(lines)
  {
    var body := Body(lines);
    ghost var ps := Parses(body, ParseLine);
    table := map[];
    var i := 0;
    while i < |body|
      invariant 0 <= i <= |body|
      invariant Run(ps[..i]) == Load(table, false)
    {
      var next, stop := Pass(table, body[i]);
      ParsesAt(body, ParseLine, i);
      RunNext(ps, i);
      if stop {
        RunStopped(ps, i + 1);
        return next, true;
      }
      table := next;
      i := i + 1;
    }
    assert ps[..i] == ps;
    failed := false;
  }

  // ---------------------------------------------------------------- properties

  /** Once int() has stopped the loop, the lines after the failing one change nothing. */
  lemma CollectStopped(lines: seq<string>, k: nat)
    requires k <= |lines| && Collect(lines[..k]).failed
    ensures Collect(lines) == Collect(lines[..k])
  {
    ParsesPrefix(lines, ParseLine, k);
    RunStopped(Parses(lines, ParseLine), k);
  }

  /** The two header lines are never read as variables: files that differ only there load
      alike, and a file of two lines or fewer has no variables. */
  lemma HeaderSkipped(a: string, b: string, c: string, d: string, rest: seq<string>)
    ensures LoadVlist([a, b] + rest) == LoadVlist([c, d] + rest)
    ensures LoadVlist([a, b]) == Load(map[], false)
  {
    assert Body([a, b] + rest) == rest;
    assert Body([c, d] + rest) == rest;
  }

  /** A line with fewer than six fields is skipped: it changes nothing wherever it stands. */
  lemma ShortLineSkipped(pre: seq<string>, line: string, post: seq<string>)
    requires |Fields(line)| < 6
    ensures Collect(pre + [line] + post) == Collect(pre + post)
  {
    assert Parses([line], ParseLine) == [Ok(None)];
    ParsesAppend(pre, [line], ParseLine);
    ParsesAppend(pre + [line], post, ParseLine);
    ParsesAppend(pre, post, ParseLine);
    RunSkips(Parses(pre, ParseLine), Parses(post, ParseLine));
  }

  /** A line that parses adds its entry under its name, replacing an earlier one. */
  lemma AddsEntry(pre: seq<string>, line: string, name: string, e: Entry)
    requires !Collect(pre).failed && ParseLine(line) == Ok(Some((name, e)))
    ensures Collect(pre + [line]) == Load(Collect(pre).table[name := e], false)
  {
    assert Parses([line], ParseLine) == [ParseLine(line)];
    ParsesAppend(pre, [line], ParseLine);
    RunSnoc(Parses(pre, ParseLine), ParseLine(line));
  }

  /** When two lines carry the same name, the later one wins: the table holds the entry of
      the last line with that name, provided no later line stops the loop. */
  lemma LastLineWins(pre: seq<string>, line: string, post: seq<string>, name: string, e: Entry)
    requires !Collect(pre).failed && ParseLine(line) == Ok(Some((name, e)))
    requires forall i :: 0 <= i < |post| ==> ParseLine(post[i]).Ok?
    requires forall i :: 0 <= i < |post| ==> ParseLine(post[i]).value.Some? ==> ParseLine(post[i]).value.value.0 != name
    ensures !Collect(pre + [line] + post).failed
    ensures name in Collect(pre + [line] + post).table && Collect(pre + [line] + post).table[name] == e
  {
    var b := Parses(post, ParseLine);
    forall i | 0 <= i < |b|
      ensures b[i] == ParseLine(post[i])
    {
      ParsesAt(post, ParseLine, i);
    }
    assert Parses([line], ParseLine) == [Ok(Some((name, e)))];
    ParsesAppend(pre, [line], ParseLine);
    ParsesAppend(pre + [line], post, ParseLine);
    RunLastWins(Parses(pre, ParseLine), name, e, b);
  }

  /** Every entry of the table comes from a line of the file that parses to it. */
  lemma EntryFromLine(lines: seq<string>, name: string)
    requires name in Collect(lines).table
    ensures exists i :: 0 <= i < |lines| && ParseLine(lines[i]) == Ok(Some((name, Collect(lines).table[name])))
  {
    RunOrigin(Parses(lines, ParseLine), name);
    var i :| 0 <= i < |lines| && Parses(lines, ParseLine)[i] == Ok(Some((name, Collect(lines).table[name])));
    ParsesAt(lines, ParseLine, i);
  }

  /** Empty offset and length fields take the defaults 0 and 1; six fields give the
      parent type family "none" and no history id, seven give no history id. */
  lemma Defaults(line: string)
    requires |Fields(line)| >= 6 && ParseLine(line).Ok?
    ensures var (parts, e) := (Fields(line), ParseLine(line).value.value.1);
      && (parts[4] == [] ==> e.offset == 0)
      && (parts[5] == [] ==> e.length == 1)
      && (|parts| == 6 ==> e.parentTypeFamily == "none")
      && (|parts| <= 7 ==> e.historyId == None)
  {
  }

  // ---------------------------------------------------------------- writing a line

  /** The fields of the line a .vlist file holds for a variable, with the history id as an
      eighth field when there is one. */
  function FieldsOf(name: string, e: Entry): (r: seq<string>)
    ensures |r| == if e.historyId.Some? then 8 else 7
  {
    var fields := [e.project, name, e.typeName, DecimalString(e.uid), DecimalString(e.offset),
                   DecimalString(e.length), e.parentTypeFamily];
    if e.historyId.Some? then fields + [e.historyId.value] else fields
  }

  /** The line itself: the fields joined by ';'. */
  function LineOf(name: string, e: Entry): string
  {
    Join(FieldsOf(name, e), ';')
  }

  /** A field that the line can carry unchanged. */
  predicate Plain(text: string)
  {
    ';' !in text
  }

  /** The entries a line can describe exactly: no field holds ';', the name holds no '$',
      the type neither starts nor ends with '$', and the line has no whitespace at its two
      ends that strip() would remove. */
  predicate Writable(name: string, e: Entry)
  {
    && Plain(e.project) && Plain(name) && Plain(e.typeName) && Plain(e.parentTypeFamily)
    && (e.historyId.Some? ==> Plain(e.historyId.value))
    && '$' !in name
    && (e.typeName == [] || (e.typeName[0] != '$' && e.typeName[|e.typeName| - 1] != '$'))
    && (e.project == [] || !IsSpace(e.project[0]))
    && var lastField := if e.historyId.Some? then e.historyId.value else e.parentTypeFamily;
       lastField == [] || !IsSpace(lastField[|lastField| - 1])
  }

  lemma DecimalPlain(n: int)
    ensures Plain(DecimalString(n))
  {
    var s := DecimalString(n);
    if n < 0 {
      assert forall i :: 1 <= i < |s| ==> s[i] == NatString(-n)[i - 1];
    }
  }

  /** The first character of a join is that of its first field, or the separator. */
  lemma {:induction false} JoinEnds(parts: seq<string>, sep: char)
    requires |parts| >= 2
    ensures |Join(parts, sep)| > 0
    ensures Join(parts, sep)[0] == if parts[0] == [] then sep else parts[0][0]
    ensures var s, l := Join(parts, sep), parts[|parts| - 1];
      s[|s| - 1] == if l == [] then sep else l[|l| - 1]
  {
    if |parts| > 2 {
      JoinEnds(parts[1..], sep);
      assert parts[1..][|parts[1..]| - 1] == parts[|parts| - 1];
    } else {
      assert Join(parts, sep) == parts[0] + [sep] + parts[1];
    }
  }

  /** Splitting the line gives its fields back. */
  lemma LineFields(name: string, e: Entry)
    requires Writable(name, e)
    ensures Fields(LineOf(name, e)) == FieldsOf(name, e)
  {
    var parts := FieldsOf(name, e);
    var line := LineOf(name, e);
    DecimalPlain(e.uid);
    DecimalPlain(e.offset);
    DecimalPlain(e.length);
    assert forall i :: 0 <= i < |parts| ==> ';' !in parts[i];
    JoinEnds(parts, ';');
    TrimmedAlready(line, IsSpace);
    SplitJoin(parts, ';');
  }

  /** The fields of a variable are read back as the same name and entry. */
  lemma FieldsRoundTrip(name: string, e: Entry)
    requires Writable(name, e)
    ensures ParseFields(FieldsOf(name, e)) == Ok(Some((name, e)))
  {
    var parts := FieldsOf(name, e);
    FieldsOfAt(name, e);
    FieldValues(name, e);
    ParseFieldsOk(parts, e.uid, e.offset, e.length);
    var tail := if |parts| > 6 then parts[6] else "none";
    var history := if |parts| > 7 then Some(parts[7]) else None;
    assert Entry(parts[0], e.uid, StripChar(parts[2], '$'), e.offset, e.length, tail, history) == e;
  }

  lemma FieldsOfAt(name: string, e: Entry)
    ensures var parts := FieldsOf(name, e);
      && parts[0] == e.project && parts[1] == name && parts[2] == e.typeName
      && parts[3] == DecimalString(e.uid) && parts[4] == DecimalString(e.offset)
      && parts[5] == DecimalString(e.length) && parts[6] == e.parentTypeFamily
      && (|parts| > 7 <==> e.historyId.Some?)
      && (e.historyId.Some? ==> parts[7] == e.historyId.value)
  {
  }

  lemma FieldValues(name: string, e: Entry)
    requires Writable(name, e)
    ensures RemoveChar(name, '$') == name && StripChar(e.typeName, '$') == e.typeName
    ensures ParseInt(DecimalString(e.uid), 10) == Some(e.uid)
    ensures FieldOr(DecimalString(e.offset), 0) == Some(e.offset)
    ensures FieldOr(DecimalString(e.length), 1) == Some(e.length)
  {
    ParseDecimalString(e.uid);
    ParseDecimalString(e.offset);
    ParseDecimalString(e.length);
    DecimalStringNonEmpty(e.offset);
    DecimalStringNonEmpty(e.length);
  }

  lemma ParseFieldsOk(parts: seq<string>, uid: int, offset: int, length: int)
    requires |parts| >= 6
    requires ParseInt(parts[3], 10) == Some(uid)
    requires FieldOr(parts[4], 0) == Some(offset) && FieldOr(parts[5], 1) == Some(length)
    ensures ParseFields(parts) ==
      Ok(Some((RemoveChar(parts[1], '$'),
               Entry(parts[0], uid, StripChar(parts[2], '$'), offset, length,
                     if |parts| > 6 then parts[6] else "none",
                     if |parts| > 7 then Some(parts[7]) else None))))
  {
  }

  lemma DecimalStringNonEmpty(n: int)
    ensures FieldOr(DecimalString(n), 0) == ParseInt(DecimalString(n), 10)
    ensures FieldOr(DecimalString(n), 1) == ParseInt(DecimalString(n), 10)
  {
  }

  /** A variable written as a line is read back as the same name and entry. */
  lemma LineRoundTrip(name: string, e: Entry)
    requires Writable(name, e)
    ensures ParseLine(LineOf(name, e)) == Ok(Some((name, e)))
  {
    LineFields(name, e);
    FieldsRoundTrip(name, e);
  }
}
