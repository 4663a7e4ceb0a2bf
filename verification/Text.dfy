/** Splitting and joining strings, with the exact behaviour of std::getline. */
module Text {
  import opened Common

  /** What getline leaves: the item, and the characters not read yet. */
  datatype Piece = Piece(item: string, rest: string)

  function IndexOf(s: string, d: char): (i: nat)
    ensures i <= |s| && (i < |s| ==> s[i] == d)
    ensures forall k :: 0 <= k < i ==> s[k] != d
  {
    if s == "" || s[0] == d then 0 else 1 + IndexOf(s[1..], d)
  }

  /** getline fails only when no character is left; the delimiter is read and dropped. */
  function Getline(s: string, d: char): (r: Option<Piece>)
    ensures r.Some? ==> |r.value.rest| < |s|
  {
    var i := IndexOf(s, d);
    if s == "" then None
    else if i < |s| then Some(Piece(s[..i], s[i + 1..]))
    else Some(Piece(s, ""))
  }

  /** Everything getline returns until it fails. */
  function Fields(s: string, d: char): (fs: seq<string>)
    ensures s != "" ==> fs != []
    decreases |s|
  {
    match Getline(s, d)
    case None => []
    case Some(p) => [p.item] + Fields(p.rest, d)
  }

  function Concat(fs: seq<string>): string {
    if fs == [] then "" else fs[0] + Concat(fs[1..])
  }

  /** The bounded split: field number count is lost and later ones are glued to the last kept. */
  function Bounded(fs: seq<string>, count: nat): seq<string>
    requires count > 0
  {
    if |fs| <= count then fs else fs[..count - 1] + [fs[count - 1] + Concat(fs[count + 1..])]
  }

  lemma BoundedLong(fs: seq<string>, count: nat)
    requires 0 < count < |fs|
    ensures Bounded(fs, count) == fs[..count][count - 1 := fs[count - 1] + Concat(fs[count + 1..])]
  {
  }

  lemma ConcatFirst(a: string, fs: seq<string>)
    ensures Concat([a] + fs) == a + Concat(fs)
  {
    assert ([a] + fs)[1..] == fs;
  }

  lemma {:induction false} ConcatBoth(a: seq<string>, b: seq<string>)
    ensures Concat(a + b) == Concat(a) + Concat(b)
  {
    if a == [] {
      assert a + b == b;
    } else {
      assert a + b == [a[0]] + (a[1..] + b);
      ConcatFirst(a[0], a[1..] + b);
      ConcatBoth(a[1..], b);
    }
  }

  lemma ConcatOne(a: string)
    ensures Concat([a]) == a
  {
    ConcatFirst(a, []);
    assert [a] + [] == [a];
  }

  /** Of the text between the delimiters exactly field number count is lost. */
  lemma BoundedLoses(fs: seq<string>, count: nat)
    requires 0 < count < |fs|
    ensures |Bounded(fs, count)| == count && Bounded(fs, count)[..count - 1] == fs[..count - 1]
    ensures Concat(Bounded(fs, count)) == Concat(fs[..count]) + Concat(fs[count + 1..])
    ensures Concat(fs) == Concat(fs[..count]) + fs[count] + Concat(fs[count + 1..])
  {
    var head, mid, tail := fs[..count - 1], fs[count - 1], fs[count + 1..];
    assert fs[..count] == head + [mid] && fs == fs[..count] + ([fs[count]] + tail);
    ConcatBoth(head, [mid]);
    ConcatBoth(head, [mid + Concat(tail)]);
    ConcatBoth(fs[..count], [fs[count]] + tail);
    ConcatOne(mid);
    ConcatOne(mid + Concat(tail));
    ConcatFirst(fs[count], tail);
    ConcatParts(Concat(head), mid, Concat(tail));
    ConcatParts(Concat(fs[..count]), fs[count], Concat(tail));
  }

  lemma ConcatParts(a: string, b: string, c: string)
    ensures a + (b + c) == a + b + c
  {
  }

  lemma SplitStep(fs: seq<string>, i: nat, item: string, tail: seq<string>)
    requires i <= |fs| && fs[i..] == [item] + tail
    ensures i < |fs| && fs[..i] + [item] == fs[..i + 1] && fs[i + 1..] == tail
  {
    assert fs[i..][0] == fs[i] && fs[i..][1..] == fs[i + 1..];
  }

  /** The first loop of split: up to count items are kept, and getline has been called once more. */
  method TakeFields(s: string, d: char, count: nat) returns (elems: seq<string>, got: Option<Piece>)
    ensures var fs := Fields(s, d);
            if |fs| <= count then elems == fs && got == None
            else elems == fs[..count] && got.Some? && Fields(got.value.rest, d) == fs[count + 1..]
  {
    ghost var fs := Fields(s, d);
    elems := [];
    var i, rest := 0, s;
    got := Getline(rest, d);
    while got.Some? && i < count
      invariant i <= count && i <= |fs| && elems == fs[..i]
      invariant got == Getline(rest, d) && Fields(rest, d) == fs[i..]
      decreases |rest|
    {
      SplitStep(fs, i, got.value.item, Fields(got.value.rest, d));
      elems := elems + [got.value.item];
      i, rest := i + 1, got.value.rest;
      got := Getline(rest, d);
    }
    if got.Some? {
      SplitStep(fs, i, got.value.item, Fields(got.value.rest, d));
    }
  }

  /** string_utils::split and csv_serde::split. The item read when i < count fails is not kept. */
  method Split(s: string, d: char, count: nat) returns (elems: seq<string>)
    requires count > 0
    ensures elems == Bounded(Fields(s, d), count)
  {
    var got;
    elems, got := TakeFields(s, d, count);
    if got.Some? {
      BoundedLong(Fields(s, d), count);
      elems := GlueRest(elems, got.value.rest, d);
    }
  }

  lemma ConcatNext(glued: string, s: string, d: char, p: Piece)
    requires Getline(s, d) == Some(p)
    ensures glued + Concat(Fields(s, d)) == glued + p.item + Concat(Fields(p.rest, d))
  {
    ConcatFirst(p.item, Fields(p.rest, d));
    assert glued + (p.item + Concat(Fields(p.rest, d))) == glued + p.item + Concat(Fields(p.rest, d));
  }

  /** The second loop of split. */
  method GlueRest(elems: seq<string>, s: string, d: char) returns (r: seq<string>)
    requires elems != []
    ensures r == elems[|elems| - 1 := elems[|elems| - 1] + Concat(Fields(s, d))]
  {
    var last, rest := |elems| - 1, s;
    r := elems;
    var got := Getline(rest, d);
    while got.Some?
      invariant |r| == |elems| && r[..last] == elems[..last]
      invariant got == Getline(rest, d)
      invariant r[last] + Concat(Fields(rest, d)) == elems[last] + Concat(Fields(s, d))
      decreases |rest|
    {
      ConcatNext(r[last], rest, d, got.value);
      r := r[last := r[last] + got.value.item];
      rest := got.value.rest;
      got := Getline(rest, d);
    }
    assert r[last] + "" == r[last];
  }

  /** UINT64_MAX: more fields than any string has. */
  const UNLIMITED: nat := 0xFFFF_FFFF_FFFF_FFFF

  lemma {:induction false} FieldsBound(s: string, d: char)
    ensures |Fields(s, d)| <= |s|
    decreases |s|
  {
    match Getline(s, d)
    case None =>
    case Some(p) => FieldsBound(p.rest, d);
  }

  /** split without a bound. */
  method SplitAll(s: string, d: char) returns (elems: seq<string>)
    ensures elems == Bounded(Fields(s, d), UNLIMITED)
    ensures |s| <= UNLIMITED ==> elems == Fields(s, d)
  {
    FieldsBound(s, d);
    elems := Split(s, d, UNLIMITED);
  }

  function Join(v: seq<string>, delim: string): string
    requires v != []
  {
    if |v| == 1 then v[0] else v[0] + delim + Join(v[1..], delim)
  }

  lemma {:induction false} JoinLast(v: seq<string>, e: string, delim: string)
    requires v != []
    ensures Join(v + [e], delim) == Join(v, delim) + delim + e
  {
    if |v| <= 1 {
    } else {
      JoinLast(v[1..], e, delim);
      assert (v + [e])[1..] == v[1..] + [e];
      assert v[0] + delim + (Join(v[1..], delim) + delim + e) == v[0] + delim + Join(v[1..], delim) + delim + e;
    }
  }

  /** mk_string. */
  method MkString(v: seq<string>, delim: string) returns (s: string)
    requires v != []
    ensures s == Join(v, delim)
  {
    var str, i := "", 0;
    while i < |v| - 1
      invariant 0 <= i < |v|
      invariant str + v[i] == Join(v[..i + 1], delim)
    {
      str := str + (v[i] + delim);
      i := i + 1;
      assert v[..i + 1] == v[..i] + [v[i]];
      JoinLast(v[..i], v[i], delim);
    }
    assert v[..i + 1] == v;
    s := str + v[i];
  }

  // Round trips.

  lemma {:induction false} IndexAfter(a: string, d: char, t: string)
    requires d !in a
    ensures IndexOf(a + [d] + t, d) == |a|
  {
    if a == "" {
    } else {
      IndexAfter(a[1..], d, t);
      assert (a + [d] + t)[1..] == a[1..] + [d] + t;
      assert a[0] in a;
    }
  }

  lemma FirstField(a: string, d: char, t: string)
    requires d !in a
    ensures Fields(a + [d] + t, d) == [a] + Fields(t, d)
  {
    var s := a + [d] + t;
    IndexAfter(a, d, t);
    assert s[..|a|] == a && s[|a| + 1..] == t;
    assert Getline(s, d) == Some(Piece(a, t));
  }

  lemma EmptyField(d: char, t: string)
    ensures Fields([d] + t, d) == [""] + Fields(t, d)
  {
    assert ([d] + t)[1..] == t;
    assert Getline([d] + t, d) == Some(Piece("", t));
  }

  lemma OnlyField(a: string, d: char)
    requires d !in a && a != ""
    ensures Fields(a, d) == [a]
  {
    assert IndexOf(a, d) == |a|;
  }

  predicate Free(v: seq<string>, d: char) {
    forall i :: 0 <= i < |v| ==> d !in v[i]
  }

  lemma {:induction false} FieldsAreFree(s: string, d: char)
    ensures Free(Fields(s, d), d)
    decreases |s|
  {
    match Getline(s, d)
    case None =>
    case Some(p) => FieldsAreFree(p.rest, d);
  }

  /** v without a last empty element. */
  function Trimmed(v: seq<string>): seq<string> {
    if v != [] && v[|v| - 1] == "" then v[..|v| - 1] else v
  }

  lemma TrimmedCons(v: seq<string>)
    requires |v| > 1
    ensures Trimmed(v) == [v[0]] + Trimmed(v[1..])
  {
    assert v == [v[0]] + v[1..];
  }

  lemma {:induction false} SplitOfJoin(v: seq<string>, d: char)
    requires v != [] && Free(v, d)
    ensures Fields(Join(v, [d]), d) == Trimmed(v)
  {
    if |v| == 1 {
      if v[0] != "" {
        OnlyField(v[0], d);
      }
    } else {
      FirstField(v[0], d, Join(v[1..], [d]));
      SplitOfJoin(v[1..], d);
      TrimmedCons(v);
    }
  }

  /** split inverts mk_string exactly when no element holds the delimiter and the last is not empty. */
  lemma SplitInvertsJoin(v: seq<string>, d: char)
    requires v != []
    ensures Fields(Join(v, [d]), d) == v <==> Free(v, d) && v[|v| - 1] != ""
  {
    if Free(v, d) {
      SplitOfJoin(v, d);
    } else {
      FieldsAreFree(Join(v, [d]), d);
    }
  }
}
