/** Block names: host and five numbers, joined by colons. */
module BlockNames {
  import opened Common
  import opened Decimals
  import opened Text

  datatype Block = Block(host: string, servicePort: int, managementPort: int, notificationPort: int,
                         chainPort: int, id: int)

  lemma NumbersHaveNoColon(n: int)
    ensures ':' !in ToString(n) && ToString(n) != ""
  {
  }

  function Make(b: Block): string {
    b.host + ":" + ToString(b.servicePort) + ":" + ToString(b.managementPort) + ":"
    + ToString(b.notificationPort) + ":" + ToString(b.chainPort) + ":" + ToString(b.id)
  }

  /** Field i of a name, empty when there are fewer. */
  function FieldOf(fs: seq<string>, i: nat): string {
    if i < |fs| then fs[i] else ""
  }

  /** getline into a variable that stays empty when nothing is left. */
  method NextField(s: string) returns (field: string, rest: string)
    ensures field == FieldOf(Fields(s, ':'), 0)
    ensures forall i: nat :: FieldOf(Fields(rest, ':'), i) == FieldOf(Fields(s, ':'), i + 1)
  {
    match Getline(s, ':')
    case None =>
      field, rest := "", "";
      assert Fields(s, ':') == [] && Fields(rest, ':') == [];
    case Some(p) =>
      field, rest := p.item, p.rest;
      FieldsAfter(p.item, Fields(p.rest, ':'));
      assert Fields(s, ':') == [p.item] + Fields(p.rest, ':');
  }

  lemma FieldsAfter(item: string, fs: seq<string>)
    ensures forall i: nat :: FieldOf(fs, i) == FieldOf([item] + fs, i + 1)
  {
  }

  function ParseFields(fs: seq<string>): Result<Block> {
    var s, m, n, c, i := Stoi(FieldOf(fs, 1)), Stoi(FieldOf(fs, 2)), Stoi(FieldOf(fs, 3)), Stoi(FieldOf(fs, 4)), Stoi(FieldOf(fs, 5));
    if s.Ok? && m.Ok? && n.Ok? && c.Ok? && i.Ok?
    then Ok(Block(FieldOf(fs, 0), s.value, m.value, n.value, c.value, i.value))
    else Err("Could not parse block name")
  }

  /** A name is a block exactly if its fields are the host and the five numbers in their order, and an error
      exactly if one of the five is no number. */
  lemma ParsedInOrder(fs: seq<string>, b: Block)
    ensures ParseFields(fs) == Ok(b) <==>
              && b.host == FieldOf(fs, 0)
              && Stoi(FieldOf(fs, 1)) == Ok(b.servicePort) && Stoi(FieldOf(fs, 2)) == Ok(b.managementPort)
              && Stoi(FieldOf(fs, 3)) == Ok(b.notificationPort) && Stoi(FieldOf(fs, 4)) == Ok(b.chainPort)
              && Stoi(FieldOf(fs, 5)) == Ok(b.id)
    ensures ParseFields(fs).Err? <==> exists i: nat :: 1 <= i <= 5 && Stoi(FieldOf(fs, i)).Err?
  {
    if i: nat :| 1 <= i <= 5 && Stoi(FieldOf(fs, i)).Err? {
      assert i == 1 || i == 2 || i == 3 || i == 4 || i == 5;
    }
  }

  method Parse(name: string) returns (r: Result<Block>)
    ensures r == ParseFields(Fields(name, ':'))
  {
    var host, r1 := NextField(name);
    var servicePort, r2 := NextField(r1);
    var managementPort, r3 := NextField(r2);
    var notificationPort, r4 := NextField(r3);
    var chainPort, r5 := NextField(r4);
    var id, r6 := NextField(r5);
    var s, m, n, c, i := Stoi(servicePort), Stoi(managementPort), Stoi(notificationPort), Stoi(chainPort), Stoi(id);
    if s.Ok? && m.Ok? && n.Ok? && c.Ok? && i.Ok? {
      r := Ok(Block(host, s.value, m.value, n.value, c.value, i.value));
    } else {
      r := Err("Could not parse block name");
    }
  }

  predicate Int32Fields(b: Block) {
    Int32(b.servicePort) && Int32(b.managementPort) && Int32(b.notificationPort) && Int32(b.chainPort) && Int32(b.id)
  }

  function Parts(b: Block): seq<string> {
    [b.host, ToString(b.servicePort), ToString(b.managementPort), ToString(b.notificationPort), ToString(b.chainPort),
     ToString(b.id)]
  }

  lemma MakeJoins(b: Block)
    ensures Make(b) == Join(Parts(b), ":")
  {
    JoinSix(b.host, ToString(b.servicePort), ToString(b.managementPort), ToString(b.notificationPort),
            ToString(b.chainPort), ToString(b.id));
  }

  lemma JoinCons(a: string, rest: seq<string>)
    requires rest != []
    ensures Join([a] + rest, ":") == a + ":" + Join(rest, ":")
  {
    assert ([a] + rest)[1..] == rest;
  }

  lemma JoinSix(a: string, b: string, c: string, d: string, e: string, f: string)
    ensures a + ":" + b + ":" + c + ":" + d + ":" + e + ":" + f == Join([a, b, c, d, e, f], ":")
  {
    var ef := e + ":" + f;
    var cdef := c + ":" + d + ":" + ef;
    JoinCons(e, [f]);
    assert [e] + [f] == [e, f];
    JoinThree(c, d, [e, f], ef, [c, d, e, f]);
    JoinThree(a, b, [c, d, e, f], cdef, [a, b, c, d, e, f]);
    Colons(a, b, c, d, ef);
    Colons(a + ":" + b, c, d, e, f);
  }

  lemma JoinThree(a: string, b: string, rest: seq<string>, joined: string, all: seq<string>)
    requires rest != [] && Join(rest, ":") == joined && all == [a, b] + rest
    ensures Join(all, ":") == a + ":" + b + ":" + joined
  {
    JoinCons(b, rest);
    JoinCons(a, [b] + rest);
    assert [a] + ([b] + rest) == all;
    assert a + ":" + (b + ":" + joined) == a + ":" + b + ":" + joined;
  }

  lemma Colons(a: string, b: string, c: string, d: string, e: string)
    ensures a + ":" + b + ":" + (c + ":" + d + ":" + e) == a + ":" + b + ":" + c + ":" + d + ":" + e
  {
  }

  lemma SixFree(a: string, b: string, c: string, d: string, e: string, f: string)
    requires ':' !in a && ':' !in b && ':' !in c && ':' !in d && ':' !in e && ':' !in f
    ensures Free([a, b, c, d, e, f], ':')
  {
  }

  lemma PartsFree(b: Block)
    requires ':' !in b.host
    ensures Free(Parts(b), ':') && Parts(b)[|Parts(b)| - 1] != ""
  {
    NumbersHaveNoColon(b.servicePort);
    NumbersHaveNoColon(b.managementPort);
    NumbersHaveNoColon(b.notificationPort);
    NumbersHaveNoColon(b.chainPort);
    NumbersHaveNoColon(b.id);
    SixFree(b.host, ToString(b.servicePort), ToString(b.managementPort), ToString(b.notificationPort),
            ToString(b.chainPort), ToString(b.id));
  }

  lemma PartsAreFields(b: Block)
    requires ':' !in b.host
    ensures Fields(Make(b), ':') == Parts(b)
  {
    MakeJoins(b);
    PartsFree(b);
    SplitInvertsJoin(Parts(b), ':');
  }

  lemma ParseParts(b: Block)
    requires Int32Fields(b)
    ensures ParseFields(Parts(b)) == Ok(b)
  {
    StoiToString(b.servicePort);
    StoiToString(b.managementPort);
    StoiToString(b.notificationPort);
    StoiToString(b.chainPort);
    StoiToString(b.id);
  }

  /** parse of make returns all six fields, for all int32 values, exactly when the host has no colon. */
  lemma NameRoundTrip(b: Block)
    requires Int32Fields(b)
    ensures ParseFields(Fields(Make(b), ':')) == Ok(b) <==> ':' !in b.host
  {
    if ':' in b.host {
      ParsedHostIsFree(Fields(Make(b), ':'), Make(b));
    } else {
      PartsAreFields(b);
      ParseParts(b);
    }
  }

  lemma ParsedHostIsFree(fs: seq<string>, s: string)
    requires fs == Fields(s, ':')
    ensures ParseFields(fs).Ok? ==> ':' !in ParseFields(fs).value.host
  {
    FieldsAreFree(s, ':');
  }
}
