/** The codec in the form the code base has it: a growing buffer and a cursor that moves through the input. */
module Tlv {
  import opened Symbolic
  import opened TlvSpec

  method AppendFields(buf: seq<byte>, fields: seq<seq<byte>>) returns (r: seq<byte>)
    ensures r == buf + Concat(fields)
  {
    r := buf;
    for i := 0 to |fields|
      invariant r == buf + Concat(fields[..i])
    {
      r := r + BigEndian(|fields[i]|, 4);
      r := r + fields[i];
      assert fields[..i + 1][..i] == fields[..i];
    }
    assert fields[..|fields|] == fields;
  }

  method ToBinary(w: Wire) returns (r: Result<seq<byte>>)
    ensures r == Encode(w)
  {
    var present := (if w.x.Some? then 1 else 0) + (if w.m.Some? then 1 else 0) + (if w.ct.Some? then 1 else 0);
    if 0 < present < 3 {
      return Err(PartialRekey);
    }
    var hasRekey := present == 3;
    var buf: seq<byte> := [VERSION];
    buf := buf + [if hasRekey then 1 else 0];
    buf := AppendFields(buf, [w.nonce, w.ciphertext]);
    ConcatTwo(w.nonce, w.ciphertext);
    assert buf == [VERSION, if hasRekey then 1 else 0] + Field(w.nonce) + Field(w.ciphertext);
    if hasRekey {
      buf := AppendFields(buf, [w.x.value, w.m.value, w.ct.value]);
      ConcatThree(w.x.value, w.m.value, w.ct.value);
      assert buf == [VERSION, 1] + Field(w.nonce) + Field(w.ciphertext) + Field(w.x.value) + Field(w.m.value) + Field(w.ct.value);
    }
    r := Ok(buf);
  }

  /** The fields one after the other. */
  ghost function Concat(fields: seq<seq<byte>>): seq<byte> {
    if fields == [] then [] else Concat(fields[..|fields| - 1]) + Field(fields[|fields| - 1])
  }

  lemma ConcatTwo(a: seq<byte>, b: seq<byte>)
    ensures Concat([a, b]) == Field(a) + Field(b)
  {
    assert [a, b][..1] == [a] && [a][..0] == [];
    assert Concat([a]) == [] + Field(a);
  }

  lemma ConcatThree(a: seq<byte>, b: seq<byte>, c: seq<byte>)
    ensures Concat([a, b, c]) == Field(a) + Field(b) + Field(c)
  {
    ConcatTwo(a, b);
    assert [a, b, c][..2] == [a, b];
  }

  class Reader {
    const data: seq<byte>
    var cursor: nat

    constructor (data: seq<byte>)
      ensures this.data == data && cursor == 0
    {
      this.data, cursor := data, 0;
    }

    method Take(n: nat) returns (ok: bool, slice: seq<byte>)
      modifies `cursor
      ensures ok <==> old(cursor) + n <= |data|
      ensures ok ==> slice == data[old(cursor)..old(cursor) + n] && cursor == old(cursor) + n
      ensures !ok ==> cursor == old(cursor)
    {
      if |data| < cursor + n {
        return false, [];
      }
      ok, slice := true, data[cursor..cursor + n];
      cursor := cursor + n;
    }

    method ReadBytes() returns (r: Parsed<seq<byte>>)
      modifies `cursor
      ensures r == ReadField(data, old(cursor))
      ensures r.Good? ==> cursor == r.next
    {
      var ok, prefix := Take(4);
      if !ok {
        return Bad(Truncated);
      }
      var bytes;
      ok, bytes := Take(Number(prefix));
      if !ok {
        return Bad(Truncated);
      }
      r := Good(bytes, cursor);
    }

    method ReadRekey(nonce: seq<byte>, ciphertext: seq<byte>) returns (r: Parsed<Wire>)
      modifies `cursor
      ensures r == DecodeRekey(data, nonce, ciphertext, old(cursor))
    {
      var x := ReadBytes();
      if x.Bad? {
        return Bad(x.error);
      }
      var m := ReadBytes();
      if m.Bad? {
        return Bad(m.error);
      }
      var ct := ReadBytes();
      if ct.Bad? {
        return Bad(ct.error);
      }
      if x.value == [] || m.value == [] || ct.value == [] {
        return Bad(EmptyField);
      }
      r := Good(Wire(nonce, ciphertext, Some(x.value), Some(m.value), Some(ct.value)), cursor);
    }
  }

  method FromBinary(data: seq<byte>) returns (r: Parsed<Wire>)
    ensures r == Decode(data)
  {
    var reader := new Reader(data);
    var ok, version := reader.Take(1);
    if !ok {
      return Bad(Truncated);
    }
    if version[0] != VERSION {
      return Bad(BadVersion);
    }
    var flag;
    ok, flag := reader.Take(1);
    if !ok {
      return Bad(Truncated);
    }
    var nonce := reader.ReadBytes();
    if nonce.Bad? {
      return Bad(nonce.error);
    }
    var ciphertext := reader.ReadBytes();
    if ciphertext.Bad? {
      return Bad(ciphertext.error);
    }
    if flag[0] != 0 {
      r := reader.ReadRekey(nonce.value, ciphertext.value);
    } else {
      r := Good(Wire(nonce.value, ciphertext.value, None, None, None), reader.cursor);
    }
  }
}
