/** mensajes_<user>.dat as bytes: a concatenation of fixed-size PendingMsg structs
    (database.h), read back in chunks of the struct size. */
module Mail {
  import opened Text

  datatype PendingMsg = PendingMsg(sender: string, id: nat, message: string, fileName: string) {
    /** What the request fields and the id counter can produce. */
    predicate Fits() {
      IsCString(sender, 255) && IsUint32(id) && IsCString(message, 255) && IsCString(fileName, 255)
    }
  }

  predicate AllFit(q: seq<PendingMsg>) {
    forall i :: 0 <= i < |q| ==> q[i].Fits()
  }

  const FIELD: nat := 256
  const RECORD: nat := 772

  /** The bytes of one struct. */
  type Record = b: string | |b| == RECORD witness seq(RECORD, _ => '\0')

  // --------------------------------------------------- one record

  /** A zeroed char[256] after strncpy(field, s, 255). */
  function Field(s: string): (b: string)
    ensures |b| == FIELD
  {
    var k := if |s| < 255 then |s| else 255;
    s[..k] + seq(FIELD - k, _ => '\0')
  }

  /** The C string stored at the start of b. */
  function CString(b: string): (s: string)
    ensures '\0' !in s
  {
    if b == "" || b[0] == '\0' then "" else [b[0]] + CString(b[1..])
  }

  /** A little-endian unsigned int. */
  function IdBytes(id: nat): (b: string)
    requires IsUint32(id)
    ensures |b| == 4
  {
    [(id % 0x100) as char, (id / 0x100 % 0x100) as char,
     (id / 0x1_0000 % 0x100) as char, (id / 0x100_0000) as char]
  }

  function IdOf(b: string): nat
    requires |b| == 4
  {
    b[0] as int + 0x100 * b[1] as int + 0x1_0000 * b[2] as int + 0x100_0000 * b[3] as int
  }

  function Encode(m: PendingMsg): Record
    requires IsUint32(m.id)
  {
    Field(m.sender) + IdBytes(m.id) + Field(m.message) + Field(m.fileName)
  }

  function RecordId(b: Record): nat {
    IdOf(b[256..260])
  }

  function Decode(b: Record): PendingMsg {
    PendingMsg(CString(b[..256]), RecordId(b), CString(b[260..516]), CString(b[516..]))
  }

  lemma {:induction false} CStringOfField(s: string, n: nat)
    requires '\0' !in s && n > 0
    ensures CString(s + seq(n, _ => '\0')) == s
  {
    if s != "" {
      assert (s + seq(n, _ => '\0'))[1..] == s[1..] + seq(n, _ => '\0');
      CStringOfField(s[1..], n);
    }
  }

  lemma FieldRoundTrip(s: string)
    requires IsCString(s, 255)
    ensures CString(Field(s)) == s
  {
    CStringOfField(s, FIELD - |s|);
    assert Field(s) == s + seq(FIELD - |s|, _ => '\0');
  }

  lemma IdRoundTrip(id: nat)
    requires IsUint32(id)
    ensures IdOf(IdBytes(id)) == id
  {
    assert id / 0x1_0000 == id / 0x100 / 0x100;
    assert id / 0x100_0000 == id / 0x1_0000 / 0x100;
  }

  /** Reading a stored struct back gives the message that was stored. */
  lemma RecordRoundTrip(m: PendingMsg)
    requires m.Fits()
    ensures RecordId(Encode(m)) == m.id && Decode(Encode(m)) == m
  {
    var b := Encode(m);
    assert b[..256] == Field(m.sender) && b[256..260] == IdBytes(m.id);
    assert b[260..516] == Field(m.message) && b[516..] == Field(m.fileName);
    IdRoundTrip(m.id);
    FieldRoundTrip(m.sender);
    FieldRoundTrip(m.message);
    FieldRoundTrip(m.fileName);
  }

  // ------------------------------------------------- the file and the queue

  /** The records a chunked read finds; an incomplete last record is not returned. */
  function Chunks(file: string): seq<Record>
    decreases |file|
  {
    if |file| < RECORD then [] else [file[..RECORD]] + Chunks(file[RECORD..])
  }

  function Concat(cs: seq<string>): string {
    if cs == [] then "" else Concat(cs[..|cs| - 1]) + cs[|cs| - 1]
  }

  function ChunksWithout(cs: seq<Record>, id: nat): seq<Record> {
    if cs == [] then []
    else
      var last := cs[|cs| - 1];
      ChunksWithout(cs[..|cs| - 1], id) + if RecordId(last) != id then [last] else []
  }

  function DecodeAll(cs: seq<Record>): (q: seq<PendingMsg>)
    ensures |q| == |cs|
  {
    seq(|cs|, i requires 0 <= i < |cs| => Decode(cs[i]))
  }

  function EncodeEach(q: seq<PendingMsg>): (cs: seq<Record>)
    requires AllFit(q)
    ensures |cs| == |q|
  {
    seq(|q|, i requires 0 <= i < |q| => Encode(q[i]))
  }

  function EncodeAll(q: seq<PendingMsg>): string
    requires AllFit(q)
  {
    Concat(EncodeEach(q))
  }

  /** The queue without the messages that carry this id. */
  function WithoutId(q: seq<PendingMsg>, id: nat): seq<PendingMsg> {
    if q == [] then []
    else
      var last := q[|q| - 1];
      WithoutId(q[..|q| - 1], id) + if last.id != id then [last] else []
  }

  lemma {:induction false} WithoutIdMembers(q: seq<PendingMsg>, id: nat, m: PendingMsg)
    ensures m in WithoutId(q, id) <==> m in q && m.id != id
  {
    if q != [] {
      WithoutIdMembers(q[..|q| - 1], id, m);
      assert q == q[..|q| - 1] + [q[|q| - 1]];
    }
  }

  lemma {:induction false} WithoutIdFits(q: seq<PendingMsg>, id: nat)
    requires AllFit(q)
    ensures AllFit(WithoutId(q, id))
  {
    if q != [] {
      WithoutIdFits(q[..|q| - 1], id);
    }
  }

  lemma {:induction false} ChunksOfConcat(cs: seq<Record>)
    ensures Chunks(Concat(cs)) == cs && |Concat(cs)| == RECORD * |cs|
  {
    if cs != [] {
      ConcatFirst(cs);
      ChunksOfConcat(cs[1..]);
      var first: string, rest := cs[0], Concat(cs[1..]);
      assert (first + rest)[..RECORD] == first && (first + rest)[RECORD..] == rest;
    }
  }

  lemma ConcatAppend(cs: seq<string>, c: string)
    ensures Concat(cs + [c]) == Concat(cs) + c
  {
    assert (cs + [c])[..|cs|] == cs;
  }

  lemma {:induction false} ConcatFirst(cs: seq<string>)
    requires cs != []
    ensures Concat(cs) == cs[0] + Concat(cs[1..])
  {
    var init, last := cs[..|cs| - 1], cs[|cs| - 1];
    ConcatAppend(init, last);
    assert cs == init + [last];
    if init == [] {
      assert Concat([]) == "";
    } else {
      ConcatFirst(init);
      ConcatAppend(init[1..], last);
      assert cs[1..] == init[1..] + [last];
      assert init[0] + Concat(init[1..]) + last == init[0] + (Concat(init[1..]) + last);
    }
  }

  /** A file the store wrote has a whole number of records and reads back as its queue. */
  lemma QueueRoundTrip(q: seq<PendingMsg>)
    requires AllFit(q)
    ensures Chunks(EncodeAll(q)) == EncodeEach(q)
    ensures |EncodeAll(q)| == RECORD * |q|
    ensures DecodeAll(Chunks(EncodeAll(q))) == q
  {
    ChunksOfConcat(EncodeEach(q));
    forall i | 0 <= i < |q| ensures Decode(EncodeEach(q)[i]) == q[i] {
      RecordRoundTrip(q[i]);
    }
  }

  /** Appending one record to the file appends the message to the queue. */
  lemma StoreAppends(q: seq<PendingMsg>, m: PendingMsg)
    requires AllFit(q) && m.Fits()
    ensures AllFit(q + [m]) && EncodeAll(q) + Encode(m) == EncodeAll(q + [m])
  {
    var cs := EncodeEach(q + [m]);
    assert cs[..|cs| - 1] == EncodeEach(q);
  }

  lemma {:induction false} ChunksWithoutFilters(q: seq<PendingMsg>, id: nat)
    requires AllFit(q)
    ensures AllFit(WithoutId(q, id))
    ensures ChunksWithout(EncodeEach(q), id) == EncodeEach(WithoutId(q, id))
  {
    WithoutIdFits(q, id);
    if q != [] {
      hide Encode, Decode, RecordId, PendingMsg.Fits;
      var init, last := q[..|q| - 1], q[|q| - 1];
      ChunksWithoutFilters(init, id);
      RecordRoundTrip(last);
      assert EncodeEach(q)[..|q| - 1] == EncodeEach(init);
      assert EncodeEach(WithoutId(q, id)) ==
        EncodeEach(WithoutId(init, id)) + if last.id != id then [Encode(last)] else [];
    }
  }

  /** Deleting by id on the bytes is the order-preserving filter on the queue. */
  lemma DeleteFilters(q: seq<PendingMsg>, id: nat)
    requires AllFit(q)
    ensures AllFit(WithoutId(q, id))
    ensures Concat(ChunksWithout(Chunks(EncodeAll(q)), id)) == EncodeAll(WithoutId(q, id))
  {
    QueueRoundTrip(q);
    ChunksWithoutFilters(q, id);
  }
}
