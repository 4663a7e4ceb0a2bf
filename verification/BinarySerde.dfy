/** The binary form of a table: for each entry its key and its value, each after its size as eight
    bytes, least significant first. */
module BinarySerde {
  import opened Common
  import opened KvStore
  import opened Tables

  const SIZE_BYTES: nat := 8

  // Sizes.

  function Little(n: nat, k: nat): (s: string)
    ensures |s| == k
  {
    if k == 0 then "" else [(n % 256) as char] + Little(n / 256, k - 1)
  }

  function FromLittle(s: string): nat {
    if s == "" then 0 else s[0] as nat % 256 + 256 * FromLittle(s[1..])
  }

  function Power256(k: nat): nat {
    if k == 0 then 1 else 256 * Power256(k - 1)
  }

  lemma {:induction false} LittleRoundTrip(n: nat, k: nat)
    requires n < Power256(k)
    ensures FromLittle(Little(n, k)) == n
  {
    if k == 0 {
    } else {
      LittleRoundTrip(n / 256, k - 1);
    }
  }

  lemma SizeRoundTrip(n: nat)
    requires n < SIZE_LIMIT
    ensures FromLittle(Little(n, SIZE_BYTES)) == n
  {
    assert Power256(4) == 0x1_0000_0000;
    assert Power256(SIZE_BYTES) == SIZE_LIMIT;
    LittleRoundTrip(n, SIZE_BYTES);
  }

  // Writing.

  function Framed(s: string): string {
    Little(|s|, SIZE_BYTES) + s
  }

  function Bytes(es: seq<Entry>): string {
    if es == [] then "" else Framed(es[0].key) + Framed(es[0].value) + Bytes(es[1..])
  }

  lemma {:induction false} BytesSnoc(es: seq<Entry>, e: Entry)
    ensures Bytes(es + [e]) == Bytes(es) + (Framed(e.key) + Framed(e.value))
  {
    if es == [] {
      assert [e][1..] == [];
    } else {
      BytesSnoc(es[1..], e);
      assert (es + [e])[1..] == es[1..] + [e];
      Regroup(Framed(es[0].key) + Framed(es[0].value), Bytes(es[1..]), Framed(e.key) + Framed(e.value));
    }
  }

  lemma Regroup(a: string, b: string, c: string)
    ensures a + (b + c) == (a + b) + c
  {
  }

  /** serialize: the entries in the order in which the table enumerates them. */
  method Serialize(es: seq<Entry>) returns (out: string, size: nat)
    ensures out == Bytes(es) && size == |out|
  {
    out := "";
    for i := 0 to |es|
      invariant out == Bytes(es[..i])
    {
      assert es[..i + 1] == es[..i] + [es[i]];
      BytesSnoc(es[..i], es[i]);
      out := out + (Little(|es[i].key|, SIZE_BYTES) + es[i].key + (Little(|es[i].value|, SIZE_BYTES) + es[i].value));
    }
    assert es[..|es|] == es;
    size := |out|;
  }

  /** Where the parts of an entry stand: the size of the key, the key, the size of the value, the value. */
  lemma RecordAt(e: Entry)
    requires |e.key| < SIZE_LIMIT && |e.value| < SIZE_LIMIT
    ensures var r, k := Bytes([e]), SIZE_BYTES + |e.key|;
            && |r| == k + SIZE_BYTES + |e.value|
            && FromLittle(r[..SIZE_BYTES]) == |e.key| && r[SIZE_BYTES..k] == e.key
            && FromLittle(r[k..k + SIZE_BYTES]) == |e.value| && r[k + SIZE_BYTES..] == e.value
  {
    var r, k := Bytes([e]), SIZE_BYTES + |e.key|;
    var a, b := Little(|e.key|, SIZE_BYTES), Little(|e.value|, SIZE_BYTES);
    SizeRoundTrip(|e.key|);
    SizeRoundTrip(|e.value|);
    BytesSnoc([], e);
    assert [] + [e] == [e];
    CutFour(a, e.key, b, e.value, r);
  }

  lemma CutFour(a: string, k: string, b: string, v: string, r: string)
    requires r == (a + k) + (b + v)
    ensures r[..|a|] == a && r[|a|..|a| + |k|] == k
    ensures r[|a| + |k|..|a| + |k| + |b|] == b && r[|a| + |k| + |b|..] == v
  {
  }

  // Reading.

  /** What is left of the stream, and whether a read has met its end. */
  datatype Input = Input(rest: string, eof: bool)

  /** A read overwrites the buffer from its start with what there is; it meets the end of the stream
      only when the buffer is longer than that, and from then on reads nothing. */
  function Read(input: Input, buffer: string): (Input, string) {
    if input.eof then (input, buffer)
    else if |buffer| <= |input.rest| then (Input(input.rest[|buffer|..], false), input.rest[..|buffer|])
    else (Input("", true), input.rest + buffer[|input.rest|..])
  }

  /** What the two uninitialised size variables hold before they are read into. */
  datatype Junk = Junk(key: string, value: string)

  predicate SizeJunk(junk: Junk) {
    |junk.key| == SIZE_BYTES && |junk.value| == SIZE_BYTES
  }

  function Zeros(n: nat): string {
    seq(n, _ => '\0')
  }

  function ReadFramed(input: Input, junk: string): (r: (Input, string))
    requires |junk| == SIZE_BYTES
    ensures !r.0.eof ==> |r.0.rest| + SIZE_BYTES <= |input.rest|
    ensures r.0.eof ==> input.eof || r.0.rest == ""
    ensures input.eof ==> r.0 == input
  {
    var (i1, size) := Read(input, junk);
    Read(i1, Zeros(FromLittle(size)))
  }

  class InStream {
    var input: Input

    constructor (data: string)
      ensures input == Input(data, false)
    {
      input := Input(data, false);
    }

    method Fill(buffer: string) returns (r: string)
      modifies this
      ensures (input, r) == Read(old(input), buffer)
    {
      if input.eof {
        return buffer;
      }
      var n := if |buffer| <= |input.rest| then |buffer| else |input.rest|;
      r := input.rest[..n] + buffer[n..];
      assert n == |buffer| ==> r == input.rest[..n];
      assert n == |input.rest| ==> input.rest[n..] == "" && input.rest[..n] == input.rest;
      input := Input(input.rest[n..], n < |buffer|);
    }

    /** A size, then a buffer resized to it. */
    method FillFramed(junk: string) returns (r: string)
      requires |junk| == SIZE_BYTES
      modifies this
      ensures (input, r) == ReadFramed(old(input), junk)
    {
      var size := Fill(junk);
      r := Fill(Zeros(FromLittle(size)));
    }
  }

  function Load(input: Input, junk: Junk, t: Store): Store
    requires SizeJunk(junk)
    decreases |input.rest|, !input.eof
  {
    if input.eof then t else
    var (i1, key) := ReadFramed(input, junk.key);
    var (i2, value) := ReadFramed(i1, junk.value);
    Load(i2, junk, Insert(t, key, value))
  }

  /** deserialize: records until a read meets the end of the stream. After that tellg answers -1,
      which is the size returned. */
  method Deserialize(stream: InStream, junk: Junk, table: Store) returns (t: Store, size: nat)
    requires SizeJunk(junk) && !stream.input.eof
    modifies stream
    ensures t == Load(old(stream.input), junk, table)
    ensures stream.input == Input("", true) && size == SIZE_LIMIT - 1
  {
    t := table;
    while !stream.input.eof
      invariant Load(stream.input, junk, t) == Load(old(stream.input), junk, table)
      invariant stream.input.eof ==> stream.input.rest == ""
      decreases |stream.input.rest|, !stream.input.eof
    {
      var key := stream.FillFramed(junk.key);
      var value := stream.FillFramed(junk.value);
      t := Insert(t, key, value);
    }
    size := SIZE_LIMIT - 1;
  }

  // The round trip.

  /** Every string has a size that fits in the eight bytes. */
  predicate Sized(es: seq<Entry>) {
    forall i :: 0 <= i < |es| ==> |es[i].key| < SIZE_LIMIT && |es[i].value| < SIZE_LIMIT
  }

  lemma WholeRead(s: string, tail: string, buffer: string)
    requires |buffer| == |s|
    ensures Read(Input(s + tail, false), buffer) == (Input(tail, false), s)
  {
    assert (s + tail)[..|s|] == s && (s + tail)[|s|..] == tail;
  }

  lemma FramedRead(s: string, tail: string, junk: string)
    requires |s| < SIZE_LIMIT && |junk| == SIZE_BYTES
    ensures ReadFramed(Input(Framed(s) + tail, false), junk) == (Input(tail, false), s)
  {
    SizeRoundTrip(|s|);
    assert Framed(s) + tail == Little(|s|, SIZE_BYTES) + (s + tail);
    WholeRead(Little(|s|, SIZE_BYTES), s + tail, junk);
    WholeRead(s, tail, Zeros(|s|));
  }

  lemma RecordRead(e: Entry, tail: string, junk: Junk, t: Store)
    requires |e.key| < SIZE_LIMIT && |e.value| < SIZE_LIMIT && SizeJunk(junk)
    ensures Load(Input(Framed(e.key) + (Framed(e.value) + tail), false), junk, t)
         == Load(Input(tail, false), junk, Insert(t, e.key, e.value))
  {
    FramedRead(e.key, Framed(e.value) + tail, junk.key);
    FramedRead(e.value, tail, junk.value);
  }

  lemma BytesSplit(es: seq<Entry>, tail: string)
    requires es != []
    ensures Bytes(es) + tail == Framed(es[0].key) + (Framed(es[0].value) + (Bytes(es[1..]) + tail))
  {
    Regroup(Framed(es[0].key), Framed(es[0].value), Bytes(es[1..]) + tail);
    Regroup(Framed(es[0].key) + Framed(es[0].value), Bytes(es[1..]), tail);
  }

  /** Consuming the records written inserts exactly the entries and leaves the cursor at the first
      byte after them, with the end of the stream not yet met. */
  lemma {:induction false} RecordsConsumed(es: seq<Entry>, tail: string, junk: Junk, t: Store)
    requires SizeJunk(junk) && Sized(es)
    ensures Load(Input(Bytes(es) + tail, false), junk, t) == Load(Input(tail, false), junk, InsertAll(es, t))
  {
    if es == [] {
      assert Bytes(es) + tail == tail;
    } else {
      var more := Bytes(es[1..]) + tail;
      BytesSplit(es, tail);
      RecordRead(es[0], more, junk, t);
      assert Sized(es[1..]);
      RecordsConsumed(es[1..], tail, junk, Insert(t, es[0].key, es[0].value));
    }
  }

  /** After the last record the loop goes round once more and inserts an entry of zero bytes, as long
      as the uninitialised sizes say. The table comes back exactly when it had that key. */
  lemma BinaryRoundTrip(es: seq<Entry>, t: Store, junk: Junk)
    requires SizeJunk(junk) && Sized(es) && Enumerates(es, t)
    ensures var extra := Zeros(FromLittle(junk.key));
            var loaded := Load(Input(Bytes(es), false), junk, map[]);
            && loaded == Insert(t, extra, Zeros(FromLittle(junk.value)))
            && (loaded == t <==> extra in t)
  {
    assert Bytes(es) + "" == Bytes(es);
    RecordsConsumed(es, "", junk, map[]);
    EnumeratedTable(es, t);
    NothingLeft(junk, t);
  }

  lemma NothingLeft(junk: Junk, t: Store)
    requires SizeJunk(junk)
    ensures Load(Input("", false), junk, t) == Insert(t, Zeros(FromLittle(junk.key)), Zeros(FromLittle(junk.value)))
  {
    assert "" + junk.key[0..] == junk.key;
  }

  lemma {:induction false} LittleBelow(s: string)
    ensures FromLittle(s) < Power256(|s|)
  {
    if s == "" {
    } else {
      LittleBelow(s[1..]);
    }
  }

  /** What a caller can tell beforehand: whatever the uninitialised sizes hold, the table comes back,
      exactly when it has a key of zero bytes of every size there is. */
  lemma BinaryRoundTripExactly(es: seq<Entry>, t: Store)
    requires Sized(es) && Enumerates(es, t)
    ensures (forall junk :: SizeJunk(junk) ==> Load(Input(Bytes(es), false), junk, map[]) == t)
       <==> forall n: nat :: n < SIZE_LIMIT ==> Zeros(n) in t
  {
    if forall junk :: SizeJunk(junk) ==> Load(Input(Bytes(es), false), junk, map[]) == t {
      forall n: nat | n < SIZE_LIMIT ensures Zeros(n) in t {
        var junk := Junk(Little(n, SIZE_BYTES), Little(n, SIZE_BYTES));
        SizeRoundTrip(n);
        BinaryRoundTrip(es, t, junk);
        assert SizeJunk(junk);
      }
    }
    if forall n: nat :: n < SIZE_LIMIT ==> Zeros(n) in t {
      forall junk | SizeJunk(junk) ensures Load(Input(Bytes(es), false), junk, map[]) == t {
        assert Power256(4) == 0x1_0000_0000;
        assert Power256(SIZE_BYTES) == SIZE_LIMIT;
        LittleBelow(junk.key);
        BinaryRoundTrip(es, t, junk);
      }
    }
  }

  lemma {:induction false} ZerosCount(t: Store, n: nat)
    requires forall k: nat :: k < n ==> Zeros(k) in t
    ensures |t| >= n
    decreases n
  {
    if n == 0 {
    } else {
      var rest := t - {Zeros(n - 1)};
      forall k: nat | k < n - 1 ensures Zeros(k) in rest {
        assert |Zeros(k)| != |Zeros(n - 1)|;
      }
      ZerosCount(rest, n - 1);
      assert t.Keys == rest.Keys + {Zeros(n - 1)};
    }
  }

  /** No table of fewer than 2^64 entries has them all, so it never comes back for whatever the sizes hold. */
  lemma BinaryNeverSafe(es: seq<Entry>, t: Store) returns (junk: Junk)
    requires Sized(es) && Enumerates(es, t) && |t| < SIZE_LIMIT
    ensures SizeJunk(junk) && Load(Input(Bytes(es), false), junk, map[]) != t
  {
    if forall n: nat :: n < SIZE_LIMIT ==> Zeros(n) in t {
      ZerosCount(t, SIZE_LIMIT);
    }
    var n: nat :| n < SIZE_LIMIT && Zeros(n) !in t;
    junk := Junk(Little(n, SIZE_BYTES), Little(n, SIZE_BYTES));
    SizeRoundTrip(n);
    BinaryRoundTrip(es, t, junk);
  }
}
