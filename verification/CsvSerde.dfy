/** The CSV form of a table: one key,value line per entry. */
module CsvSerde {
  import opened Common
  import opened Text
  import opened KvStore
  import opened Tables

  function Line(e: Entry): string {
    e.key + "," + e.value
  }

  function Rows(es: seq<Entry>): string {
    if es == [] then "" else Line(es[0]) + "\n" + Rows(es[1..])
  }

  lemma {:induction false} RowsSnoc(es: seq<Entry>, e: Entry)
    ensures Rows(es + [e]) == Rows(es) + (Line(e) + "\n")
  {
    if es == [] {
      assert [e][1..] == [];
    } else {
      RowsSnoc(es[1..], e);
      assert (es + [e])[1..] == es[1..] + [e];
      assert Line(es[0]) + "\n" + (Rows(es[1..]) + (Line(e) + "\n")) == Line(es[0]) + "\n" + Rows(es[1..]) + (Line(e) + "\n");
    }
  }

  /** serialize: the entries in the order in which the table enumerates them. */
  method Serialize(es: seq<Entry>) returns (out: string, size: nat)
    ensures out == Rows(es) && size == |out|
  {
    out := "";
    for i := 0 to |es|
      invariant out == Rows(es[..i])
    {
      assert es[..i + 1] == es[..i] + [es[i]];
      RowsSnoc(es[..i], es[i]);
      out := out + (es[i].key + "," + es[i].value + "\n");
    }
    assert es[..|es|] == es;
    size := |out|;
  }

  /** One line; a line with a single field has no ret[1] to read. */
  function LoadLine(line: string, t: Store): Result<Store> {
    var fs := Bounded(Fields(line, ','), 2);
    if |fs| < 2 then Err("no value") else Ok(Insert(t, fs[0], fs[1]))
  }

  function Load(lines: seq<string>, t: Store): Result<Store> {
    if lines == [] || lines[0] == "" then Ok(t)
    else match LoadLine(lines[0], t)
         case Err(e) => Err(e)
         case Ok(u) => Load(lines[1..], u)
  }

  /** What is left after the first empty line. */
  function LeftOver(data: string): Option<string>
    decreases |data|
  {
    match Getline(data, '\n')
    case None => None
    case Some(p) => if p.item == "" then Some(p.rest) else LeftOver(p.rest)
  }

  /** What tellg answers after deserialize: the position, or -1 where the end of the stream has been met. */
  function Told(input: string): int {
    match LeftOver(input)
    case None => SIZE_LIMIT - 1
    case Some(rest) => |input| - |rest|
  }

  /** One line after the other. */
  lemma LoadLineNext(data: string, p: Piece, t: Store)
    requires Getline(data, '\n') == Some(p)
    ensures Load(Fields(data, '\n'), t)
         == if p.item == "" then Ok(t)
            else match LoadLine(p.item, t)
                 case Err(e) => Err(e)
                 case Ok(u) => Load(Fields(p.rest, '\n'), u)
    ensures LeftOver(data) == if p.item == "" then Some(p.rest) else LeftOver(p.rest)
    ensures '\n' !in data ==> p.rest == ""
  {
    assert Fields(data, '\n')[1..] == Fields(p.rest, '\n');
  }

  method LoadOne(line: string, t: Store) returns (u: Result<Store>)
    ensures u == LoadLine(line, t)
  {
    var ret := Split(line, ',', 2);
    u := if |ret| < 2 then Err("no value") else Ok(Insert(t, ret[0], ret[1]));
  }

  /** deserialize: lines until the stream is at its end or a line is empty. */
  method Deserialize(input: string, table: Store) returns (r: Result<Store>, size: int)
    ensures r == Load(Fields(input, '\n'), table)
    ensures r.Ok? ==> size == Told(input)
  {
    var data, eof, t := input, false, table;
    size := SIZE_LIMIT - 1;
    while !eof
      invariant Load(Fields(data, '\n'), t) == Load(Fields(input, '\n'), table)
      invariant LeftOver(data) == LeftOver(input) && size == SIZE_LIMIT - 1
      invariant eof ==> data == ""
      decreases |data|, !eof
    {
      var got := Getline(data, '\n');
      // getline meets the end of the stream when no delimiter is left.
      eof := '\n' !in data;
      if got.None? {
        return Ok(t), size;
      }
      LoadLineNext(data, got.value, t);
      if got.value.item == "" {
        return Ok(t), |input| - |got.value.rest|;
      }
      var inserted := LoadOne(got.value.item, t);
      if inserted.Err? {
        return inserted, size;
      }
      t, data := inserted.value, got.value.rest;
    }
    r := Ok(t);
  }

  // The size returned.

  /** An empty line ends after the first n characters. */
  predicate EmptyLineEnds(s: string, n: int) {
    0 < n <= |s| && s[n - 1] == '\n' && (n == 1 || s[n - 2] == '\n')
  }

  predicate NoEmptyLine(s: string, n: int) {
    forall m | 0 <= m <= n :: !EmptyLineEnds(s, m)
  }

  predicate FirstEmptyLine(s: string, n: int) {
    EmptyLineEnds(s, n) && NoEmptyLine(s, n - 1)
  }

  /** After whole lines, none of them empty, data is left. */
  ghost predicate Reading(s: string, data: string) {
    && |data| <= |s| && data == s[|s| - |data|..] && NoEmptyLine(s, |s| - |data|)
    && (data == "" || |data| == |s| || s[|s| - |data| - 1] == '\n')
  }

  lemma LineRead(s: string, data: string, p: Piece)
    requires Reading(s, data) && Getline(data, '\n') == Some(p)
    ensures p.item == "" ==> FirstEmptyLine(s, |s| - |p.rest|)
    ensures p.item != "" ==> Reading(s, p.rest)
  {
    var i, pos := IndexOf(data, '\n'), |s| - |data|;
    ReadAhead(s, pos, data, i);
    if i < |data| {
      LineBreak(s, pos, data, i);
      RestAt(s, pos, data, i);
    }
  }

  lemma RestAt(s: string, pos: nat, data: string, i: nat)
    requires pos <= |s| && data == s[pos..] && i < |data|
    ensures data[i + 1..] == s[|s| - |data[i + 1..]|..] && |s| - |data[i + 1..]| == pos + i + 1
  {
  }

  lemma ReadAhead(s: string, pos: nat, data: string, i: nat)
    requires pos <= |s| && data == s[pos..] && i <= |data| && '\n' !in data[..i] && NoEmptyLine(s, pos)
    ensures NoEmptyLine(s, pos + i)
  {
    forall k | pos <= k < pos + i ensures s[k] != '\n' {
      assert s[k] == data[..i][k - pos];
    }
  }

  lemma LineBreak(s: string, pos: nat, data: string, i: nat)
    requires pos <= |s| && data == s[pos..] && i < |data| && data[i] == '\n' && '\n' !in data[..i] && NoEmptyLine(s, pos + i)
    requires pos == 0 || s[pos - 1] == '\n'
    ensures s[pos + i] == '\n' && (EmptyLineEnds(s, pos + i + 1) <==> i == 0)
    ensures i > 0 ==> NoEmptyLine(s, pos + i + 1)
  {
    assert s[pos + i] == data[i];
    if i > 0 {
      assert s[pos + i - 1] == data[..i][i - 1];
    }
  }

  ghost predicate Ended(s: string, left: Option<string>) {
    match left
    case None => NoEmptyLine(s, |s|)
    case Some(rest) => FirstEmptyLine(s, |s| - |rest|)
  }

  lemma {:induction false} LeftOverTells(s: string, data: string)
    requires Reading(s, data)
    ensures Ended(s, LeftOver(data))
    decreases |data|
  {
    if data == "" {
      NothingRead(s);
    } else {
      var p := Getline(data, '\n').value;
      LineRead(s, data, p);
      if p.item == "" {
        assert LeftOver(data) == Some(p.rest);
      } else {
        LeftOverTells(s, p.rest);
        assert LeftOver(data) == LeftOver(p.rest);
      }
    }
  }

  lemma NothingRead(s: string)
    requires Reading(s, "")
    ensures LeftOver("") == None && NoEmptyLine(s, |s|)
  {
  }

  /** The size returned is where the first empty line ends, or -1 if there is none. */
  lemma ToldMeaning(s: string)
    ensures if NoEmptyLine(s, |s|) then Told(s) == SIZE_LIMIT - 1
            else FirstEmptyLine(s, Told(s))
  {
    LeftOverTells(s, s);
  }

  // The round trip.

  predicate Clean(s: string) {
    ',' !in s && '\n' !in s
  }

  predicate CleanEntries(es: seq<Entry>) {
    forall i :: 0 <= i < |es| ==> Clean(es[i].key) && Clean(es[i].value)
  }

  predicate Writable(es: seq<Entry>) {
    CleanEntries(es) && forall i :: 0 <= i < |es| ==> es[i].value != ""
  }

  lemma FirstRow(es: seq<Entry>)
    requires es != [] && Clean(es[0].key) && Clean(es[0].value)
    ensures Fields(Rows(es), '\n') == [Line(es[0])] + Fields(Rows(es[1..]), '\n')
  {
    assert '\n' !in Line(es[0]);
    FirstField(Line(es[0]), '\n', Rows(es[1..]));
    assert Line(es[0]) + ['\n'] + Rows(es[1..]) == Rows(es);
  }

  lemma LineFields(e: Entry)
    requires Clean(e.key) && Clean(e.value)
    ensures Fields(Line(e), ',') == if e.value == "" then [e.key] else [e.key, e.value]
  {
    FirstField(e.key, ',', e.value);
    assert e.key + [','] + e.value == Line(e);
    if e.value != "" {
      OnlyField(e.value, ',');
    }
  }

  lemma LoadFirst(e: Entry, lines: seq<string>, t: Store)
    requires Clean(e.key) && Clean(e.value)
    ensures Load([Line(e)] + lines, t)
         == if e.value == "" then Err("no value") else Load(lines, Insert(t, e.key, e.value))
  {
    LineFields(e);
    assert ([Line(e)] + lines)[1..] == lines;
  }

  lemma WritableCons(es: seq<Entry>)
    requires es != [] && CleanEntries(es)
    ensures CleanEntries(es[1..]) && (Writable(es) <==> es[0].value != "" && Writable(es[1..]))
  {
    assert es == [es[0]] + es[1..];
  }

  lemma {:induction false} LoadRows(es: seq<Entry>, t: Store)
    requires CleanEntries(es)
    ensures Load(Fields(Rows(es), '\n'), t) == if Writable(es) then Ok(InsertAll(es, t)) else Err("no value")
  {
    if es == [] {
    } else {
      FirstRow(es);
      LoadFirst(es[0], Fields(Rows(es[1..]), '\n'), t);
      WritableCons(es);
      LoadRows(es[1..], Insert(t, es[0].key, es[0].value));
    }
  }

  /** No key or value has a blank line, no key starts with a newline and no value ends with one. */
  predicate NoBlankLines(es: seq<Entry>) {
    forall i :: 0 <= i < |es| ==> BlankFree(es[i])
  }

  predicate BlankFree(e: Entry) {
    && (forall k :: 0 < k < |e.key| ==> e.key[k - 1] != '\n' || e.key[k] != '\n')
    && (forall k :: 0 < k < |e.value| ==> e.value[k - 1] != '\n' || e.value[k] != '\n')
    && (e.key == "" || e.key[0] != '\n') && (e.value == "" || e.value[|e.value| - 1] != '\n')
  }

  function Row(e: Entry): string {
    Line(e) + "\n"
  }

  lemma RowAt(e: Entry, k: nat)
    requires k < |Row(e)|
    ensures Row(e)[k] == if k < |e.key| then e.key[k] else if k == |e.key| then ','
                         else if k < |e.key| + 1 + |e.value| then e.value[k - |e.key| - 1] else '\n'
  {
  }

  lemma RowBlank(e: Entry)
    ensures NoEmptyLine(Row(e), |Row(e)|) <==> BlankFree(e)
  {
    if BlankFree(e) {
      RowOpen(e);
    } else {
      RowShut(e);
    }
  }

  lemma RowOpen(e: Entry)
    requires BlankFree(e)
    ensures NoEmptyLine(Row(e), |Row(e)|)
  {
    forall m | 0 < m <= |Row(e)| ensures !EmptyLineEnds(Row(e), m) {
      RowAt(e, m - 1);
      if m > 1 {
        RowAt(e, m - 2);
      }
    }
  }

  lemma RowShut(e: Entry)
    requires !BlankFree(e)
    ensures !NoEmptyLine(Row(e), |Row(e)|)
  {
    var m;
    if e.key != "" && e.key[0] == '\n' {
      m := 1;
    } else if e.value != "" && e.value[|e.value| - 1] == '\n' {
      m := |Row(e)|;
    } else if k :| 0 < k < |e.key| && e.key[k - 1] == '\n' && e.key[k] == '\n' {
      m := k + 1;
    } else {
      var k :| 0 < k < |e.value| && e.value[k - 1] == '\n' && e.value[k] == '\n';
      m := |e.key| + k + 2;
    }
    RowAt(e, m - 1);
    if m > 1 {
      RowAt(e, m - 2);
    }
    assert EmptyLineEnds(Row(e), m);
  }

  /** Where a text ends with a newline, the empty lines of what follows are its own. */
  lemma EmptyLineSplit(a: string, b: string, m: int)
    requires a != "" && a[|a| - 1] == '\n'
    ensures EmptyLineEnds(a + b, m) <==> if m <= |a| then EmptyLineEnds(a, m) else EmptyLineEnds(b, m - |a|)
  {
  }

  lemma NoEmptyLineSplit(a: string, b: string)
    requires a != "" && a[|a| - 1] == '\n'
    ensures NoEmptyLine(a + b, |a + b|) <==> NoEmptyLine(a, |a|) && NoEmptyLine(b, |b|)
  {
    forall m ensures EmptyLineEnds(a + b, m) <==> if m <= |a| then EmptyLineEnds(a, m) else EmptyLineEnds(b, m - |a|) {
      EmptyLineSplit(a, b, m);
    }
    forall m ensures EmptyLineEnds(b, m) ==> EmptyLineEnds(a + b, m + |a|) {
      EmptyLineSplit(a, b, m + |a|);
    }
  }

  lemma {:induction false} RowsBlank(es: seq<Entry>)
    ensures NoEmptyLine(Rows(es), |Rows(es)|) <==> NoBlankLines(es)
  {
    if es == [] {
    } else {
      assert Rows(es) == Row(es[0]) + Rows(es[1..]);
      NoEmptyLineSplit(Row(es[0]), Rows(es[1..]));
      RowBlank(es[0]);
      RowsBlank(es[1..]);
      assert es == [es[0]] + es[1..];
    }
  }

  /** For what serialize wrote the size is -1, as long as it is no position itself, exactly if nothing
      written reads as an empty line. */
  lemma SerializedSize(es: seq<Entry>)
    requires |Rows(es)| < SIZE_LIMIT - 1
    ensures Told(Rows(es)) == SIZE_LIMIT - 1 <==> NoBlankLines(es)
  {
    RowsBlank(es);
    ToldMeaning(Rows(es));
  }

  lemma {:induction false} FieldsKeepOut(s: string, d: char, c: char)
    requires c !in s
    ensures Free(Fields(s, d), c)
    decreases |s|
  {
    match Getline(s, d)
    case None =>
    case Some(p) => FieldsKeepOut(p.rest, d, c);
  }

  lemma {:induction false} ConcatKeepsOut(fs: seq<string>, c: char)
    requires Free(fs, c)
    ensures c !in Concat(fs)
  {
    if fs == [] {
    } else {
      ConcatKeepsOut(fs[1..], c);
    }
  }

  lemma BoundedKeepsOut(fs: seq<string>, c: char)
    requires Free(fs, c)
    ensures Free(Bounded(fs, 2), c)
  {
    if |fs| > 2 {
      ConcatKeepsOut(fs[3..], c);
    }
  }

  ghost predicate CleanStore(t: Store) {
    forall k :: k in t ==> Clean(k) && Clean(t[k])
  }

  lemma {:induction false} LoadedIsClean(lines: seq<string>, t: Store)
    requires Free(lines, '\n') && CleanStore(t)
    ensures Load(lines, t).Ok? ==> CleanStore(Load(lines, t).value)
  {
    if lines == [] || lines[0] == "" || LoadLine(lines[0], t).Err? {
    } else {
      var fs := Fields(lines[0], ',');
      FieldsAreFree(lines[0], ',');
      FieldsKeepOut(lines[0], ',', '\n');
      BoundedKeepsOut(fs, ',');
      BoundedKeepsOut(fs, '\n');
      assert CleanStore(LoadLine(lines[0], t).value);
      LoadedIsClean(lines[1..], LoadLine(lines[0], t).value);
    }
  }

  /** deserialize of serialize gives the table back, whatever the enumeration order, exactly when no
      key or value holds a comma or a newline and no value is empty. */
  lemma CsvRoundTrip(es: seq<Entry>, t: Store)
    requires Enumerates(es, t)
    ensures Load(Fields(Rows(es), '\n'), map[]) == Ok(t) <==> Writable(es)
  {
    EnumeratedTable(es, t);
    if CleanEntries(es) {
      LoadRows(es, map[]);
    } else {
      FieldsAreFree(Rows(es), '\n');
      LoadedIsClean(Fields(Rows(es), '\n'), map[]);
      var i :| 0 <= i < |es| && !(Clean(es[i].key) && Clean(es[i].value));
      assert !CleanStore(t);
    }
  }
}
