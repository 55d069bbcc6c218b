/** comunicaciones.c and the client's receive_string: NUL-terminated fields over a byte stream. */
module Wire {
  import opened Text
  import opened Mail

  class Socket {
    /** Bytes taken by write so far, and bytes read has not returned yet. */
    var sent: string
    var incoming: string

    constructor (incoming: string)
      ensures sent == "" && this.incoming == incoming
    {
      sent, this.incoming := "", incoming;
    }

    /** write: takes some positive number of the bytes offered, or fails. */
    method Write(data: string) returns (r: int)
      modifies this`sent
      ensures -1 <= r <= |data| && (data != "" ==> r != 0)
      ensures sent == if r > 0 then old(sent) + data[..r] else old(sent)
    {
      r :| -1 <= r <= |data| && (data != "" ==> r != 0);
      if r > 0 {
        sent := sent + data[..r];
      }
    }

    /** read of one byte: 0 when the peer has closed. */
    method ReadByte() returns (n: nat, c: char)
      modifies this`incoming
      ensures old(incoming) == "" ==> n == 0 && incoming == ""
      ensures old(incoming) != "" ==> n == 1 && c == old(incoming)[0] && incoming == old(incoming)[1..]
    {
      n, c := 0, '\0';
      if incoming != "" {
        n, c, incoming := 1, incoming[0], incoming[1..];
      }
    }
  }

  /** sendMessage: the whole buffer in order, or a proper prefix of it and -1. */
  method SendMessage(socket: Socket, buffer: string) returns (code: int)
    modifies socket`sent
    ensures code == 0 || code == -1
    ensures code == 0 ==> socket.sent == old(socket.sent) + buffer
    ensures code == -1 ==>
      exists k: nat :: k <= |buffer| && (buffer != "" ==> k < |buffer|) && socket.sent == old(socket.sent) + buffer[..k]
  {
    var at := 0;
    var l := |buffer|;
    var r := socket.Write(buffer);
    l := l - r;
    at := at + r;
    assert buffer[..0] == "" && (r > 0 ==> socket.sent == old(socket.sent) + buffer[..r]);
    while l > 0 && r >= 0
      invariant r >= 0 ==> 0 <= l && at + l == |buffer| && 0 <= at && socket.sent == old(socket.sent) + buffer[..at]
      invariant r < 0 ==>
        exists k: nat :: k <= |buffer| && (buffer != "" ==> k < |buffer|) && socket.sent == old(socket.sent) + buffer[..k]
      invariant -1 <= r && (r >= 0 ==> l >= 0)
      decreases r >= 0, l
    {
      r := socket.Write(buffer[at..]);
      assert r > 0 ==> buffer[..at] + buffer[at..][..r] == buffer[..at + r];
      l := l - r;
      at := at + r;
    }
    assert r >= 0 ==> buffer[..at] == buffer;
    code := if r < 0 then -1 else 0;
  }

  // -------------------------------------------------------- reading fields

  const SHORT_MSG_SIZE: nat := 256

  /** How many bytes leer_cadena consumes from s when at most max fit; None if the stream
      ends first. */
  function Taken(s: string, max: nat): (r: Option<nat>)
    ensures r.Some? ==> r.value <= |s| && r.value <= max && (max > 0 ==> r.value > 0)
  {
    if max == 0 then Some(0)
    else if s == "" then None
    else if s[0] == '\0' then Some(1)
    else
      var n :- Taken(s[1..], max - 1);
      Some(n + 1)
  }

  /** leer_cadena(socket, buffer, 256): the C string in the buffer and the bytes left. */
  function ReadField(s: string): (r: Option<(string, string)>)
    ensures r.Some? ==> IsCString(r.value.0, 255) && |r.value.1| < |s|
  {
    var n :- Taken(s, SHORT_MSG_SIZE - 1);
    CStringPrefix(s[..n]);
    Some((CString(s[..n]), s[n..]))
  }

  lemma {:induction false} CStringPrefix(b: string)
    ensures |CString(b)| <= |b|
  {
    if b != "" {
      CStringPrefix(b[1..]);
    }
  }

  /** leer_cadena: every store into the 256-byte buffer is in bounds. */
  method LeerCadena(socket: Socket, buffer: array<char>) returns (leidos: int)
    requires buffer.Length == SHORT_MSG_SIZE
    modifies socket`incoming, buffer
    ensures leidos == -1 <==> ReadField(old(socket.incoming)).None?
    ensures leidos == -1 ==> socket.incoming == ""
    ensures leidos != -1 ==> 0 < leidos < buffer.Length && buffer[leidos] == '\0'
    ensures leidos != -1 ==> ReadField(old(socket.incoming)) == Some((CString(buffer[..leidos]), socket.incoming))
  {
    leidos := 0;
    ghost var s := socket.incoming;
    while leidos < buffer.Length - 1
      invariant 0 <= leidos <= buffer.Length - 1 && leidos <= |s|
      invariant socket.incoming == s[leidos..] && buffer[..leidos] == s[..leidos]
      invariant Taken(s, 255) == match Taken(socket.incoming, 255 - leidos)
                                 case None => None
                                 case Some(n) => Some(n + leidos)
    {
      var n, c := socket.ReadByte();
      if n <= 0 {
        return -1;
      }
      buffer[leidos] := c;
      leidos := leidos + 1;
      assert buffer[..leidos] == s[..leidos];
      assert s[leidos - 1..][1..] == s[leidos..];
      if c == '\0' { break; }
    }
    assert Taken(s, 255) == Some(leidos);
    buffer[leidos] := '\0';
  }

  function ReadFields(s: string, n: nat): Option<(seq<string>, string)> {
    if n == 0 then Some(([], s))
    else
      var (f, s1) :- ReadField(s);
      var (fs, s2) :- ReadFields(s1, n - 1);
      Some(([f] + fs, s2))
  }

  /** Fields read earlier in front of what a later read gives. */
  function Behind(done: seq<string>, r: Option<(seq<string>, string)>): Option<(seq<string>, string)> {
    var (fs, rest) :- r;
    Some((done + fs, rest))
  }

  lemma BehindNothing(r: Option<(seq<string>, string)>, done: seq<string>, rest: string)
    ensures Behind([], r) == r
    ensures Behind(done, Some(([], rest))) == Some((done, rest))
  {
    if r.Some? { assert [] + r.value.0 == r.value.0; }
    assert done + [] == done;
  }

  lemma BehindField(done: seq<string>, f: string, r: Option<(seq<string>, string)>)
    ensures Behind(done, Behind([f], r)) == Behind(done + [f], r)
    ensures Behind(done, None) == None
  {
    if r.Some? { assert done + ([f] + r.value.0) == done + [f] + r.value.0; }
  }

  lemma FirstField(s: string, n: nat)
    ensures ReadFields(s, 0) == Some(([], s))
    ensures n > 0 ==> ReadFields(s, n) == match ReadField(s)
                                          case None => None
                                          case Some((f, rest)) => Behind([f], ReadFields(rest, n - 1))
  {
  }

  /** The bytes of a request or a push: every field followed by its NUL. */
  function Frame(fields: seq<string>): string {
    if fields == [] then "" else fields[0] + "\0" + Frame(fields[1..])
  }

  lemma EmptyFrame()
    ensures Frame([]) == ""
  {
  }

  lemma {:induction false} FrameAppend(fields: seq<string>, f: string)
    ensures Frame(fields + [f]) == Frame(fields) + (f + "\0")
  {
    if fields == [] {
      assert Frame([f]) == f + "\0" + Frame([f][1..]);
    } else {
      FrameAppend(fields[1..], f);
      assert (fields + [f])[1..] == fields[1..] + [f];
    }
  }

  predicate NulFree(fields: seq<string>) {
    forall i :: 0 <= i < |fields| ==> '\0' !in fields[i]
  }

  /** Fields of at most 255 bytes where only empty fields follow one of exactly 255. */
  predicate Readable(fields: seq<string>) {
    fields == [] ||
    (|fields[0]| <= 254 && Readable(fields[1..])) ||
    (|fields[0]| == 255 && forall i :: 0 < i < |fields| ==> fields[i] == "")
  }

  lemma {:induction false} TakenWithin(f: string, rest: string, max: nat)
    requires '\0' !in f
    ensures |f| < max ==> Taken(f + "\0" + rest, max) == Some(|f| + 1)
    ensures |f| >= max ==> Taken(f + "\0" + rest, max) == Some(max)
  {
    if f == "" {
      assert (f + "\0" + rest)[0] == '\0';
    } else if max > 0 {
      assert (f + "\0" + rest)[1..] == f[1..] + "\0" + rest;
      TakenWithin(f[1..], rest, max - 1);
    }
  }

  lemma {:induction false} CStringWhole(f: string)
    requires '\0' !in f
    ensures CString(f) == f && CString(f + "\0") == f
  {
    if f != "" {
      assert (f + "\0")[1..] == f[1..] + "\0";
      CStringWhole(f[1..]);
    }
  }

  /** One field: whole up to 254 bytes; from 255 bytes on, the first 255 without their NUL. */
  lemma ReadOneField(f: string, rest: string)
    requires '\0' !in f
    ensures |f| <= 254 ==> ReadField(f + "\0" + rest) == Some((f, rest))
    ensures |f| >= 255 ==> ReadField(f + "\0" + rest) == Some((f[..255], f[255..] + "\0" + rest))
  {
    var s := f + "\0" + rest;
    TakenWithin(f, rest, 255);
    CStringWhole(f);
    if |f| <= 254 {
      assert s[..|f| + 1] == f + "\0" && s[|f| + 1..] == rest;
    } else {
      CStringWhole(f[..255]);
      assert s[..255] == f[..255] && s[255..] == f[255..] + "\0" + rest;
    }
  }

  /** After a field of exactly 255 bytes the next read returns the empty string. */
  lemma FieldOf255HidesTheNext(f: string, rest: string)
    requires '\0' !in f && |f| == 255
    ensures ReadFields(f + "\0" + rest, 2) == Some(([f, ""], rest))
  {
    ReadOneField(f, rest);
    ReadOneField("", rest);
    assert f[..255] == f && f[255..] == "";
    assert "" + "\0" + rest == "\0" + rest;
    assert ReadFields(f[255..] + "\0" + rest, 1) == Some(([""] + [], rest));
    assert [f] + ([""] + []) == [f, ""];
  }

  lemma {:induction false} ReadEmpties(fields: seq<string>)
    requires forall i :: 0 <= i < |fields| ==> fields[i] == ""
    ensures ReadFields("\0" + Frame(fields), |fields|) == Some((fields, "\0"))
  {
    if fields == [] {
      assert "\0" + Frame(fields) == "\0";
    } else {
      var tail := fields[1..];
      ReadEmpties(tail);
      ReadOneField("", Frame(fields));
      assert "" + "\0" + Frame(fields) == "\0" + Frame(fields);
      assert Frame(fields) == "\0" + Frame(tail);
      assert [""] + tail == fields;
    }
  }

  lemma {:induction false} OnlyEmptiesShift(fields: seq<string>)
    requires ReadFields("\0" + Frame(fields), |fields|).Some?
    requires ReadFields("\0" + Frame(fields), |fields|).value.0 == fields
    ensures forall i :: 0 <= i < |fields| ==> fields[i] == ""
  {
    if fields != [] {
      var tail := fields[1..];
      ReadOneField("", Frame(fields));
      assert "" + "\0" + Frame(fields) == "\0" + Frame(fields);
      var rest := ReadFields(Frame(fields), |tail|);
      assert fields == [""] + rest.value.0;
      assert fields[0] == "" && rest.value.0 == tail;
      assert Frame(fields) == "\0" + Frame(tail);
      OnlyEmptiesShift(tail);
    }
  }

  predicate ReadBack(fields: seq<string>) {
    var r := ReadFields(Frame(fields), |fields|);
    r.Some? && r.value.0 == fields
  }

  /** Successive leer_cadena calls read back exactly the fields sent if and only if every
      field before the last has at most 254 bytes and the last at most 255, but for empty
      fields behind one of 255. */
  lemma {:induction false} FramingExact(fields: seq<string>)
    requires NulFree(fields)
    ensures ReadBack(fields) <==> Readable(fields)
  {
    if fields != [] {
      var f, tail := fields[0], fields[1..];
      ReadOneField(f, Frame(tail));
      assert fields == [f] + tail;
      if |f| <= 254 {
        FramingExact(tail);
        var r := ReadFields(Frame(tail), |tail|);
        assert r.Some? ==> ([f] + r.value.0)[1..] == r.value.0;
      } else if |f| == 255 {
        assert f[..255] == f && f[255..] + "\0" + Frame(tail) == "\0" + Frame(tail);
        var r := ReadFields("\0" + Frame(tail), |tail|);
        assert r.Some? ==> ([f] + r.value.0)[1..] == r.value.0;
        if Readable(fields) {
          ReadEmpties(tail);
        }
        if ReadBack(fields) {
          OnlyEmptiesShift(tail);
        }
      } else {
        var r := ReadFields(f[255..] + "\0" + Frame(tail), |tail|);
        assert r.Some? ==> ([f[..255]] + r.value.0)[0] == f[..255];
      }
    }
  }

  /** The fields of a request or a push, each sent with its NUL by one sendMessage, under
      arbitrary partial writes: if every call reports success the frame is on the wire, and the
      reader gets the fields back if and only if they are readable. */
  method SendFields(socket: Socket, fields: seq<string>) returns (ok: bool)
    modifies socket`sent
    ensures ok ==> socket.sent == old(socket.sent) + Frame(fields)
    ensures ok && old(socket.sent) == "" && NulFree(fields) ==>
      var r := ReadFields(socket.sent, |fields|);
      (r.Some? && r.value.0 == fields <==> Readable(fields))
  {
    ok := true;
    EmptyFrame();
    assert fields[..0] == [];
    for i := 0 to |fields|
      invariant ok ==> socket.sent == old(socket.sent) + Frame(fields[..i])
    {
      var code := SendMessage(socket, fields[i] + "\0");
      if code != 0 { ok := false; }
      FrameAppend(fields[..i], fields[i]);
      assert fields[..i] + [fields[i]] == fields[..i + 1];
    }
    assert fields[..|fields|] == fields;
    if NulFree(fields) { FramingExact(fields); }
    assert "" + Frame(fields) == Frame(fields);
  }
}
