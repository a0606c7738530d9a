/** The write buffer of mms_codec.c: 256 octets in front of a file. */
module FileBuffer {
  import opened Common
  import opened Wsp

  const FB_SIZE := 256
  const MAX_ENC_VALUE_BYTES := 6

  class Buffer {
    const buf: array<Byte>
    var size: nat
    var fsize: nat
    /** What was written to the file, and how many more octets the device will take; a
        write of more than that is cut short. */
    var file: Bytes
    var room: nat

    predicate Valid()
      reads this
    {
      buf.Length == FB_SIZE && size <= FB_SIZE && fsize == |file|
    }

    /** Everything emitted so far: the file and then the part of the buffer in use. */
    ghost function Contents(): Bytes
      requires Valid()
      reads this, buf
    {
      file + buf[..size]
    }

    /** How much the device takes beyond what is buffered already. */
    ghost function Capacity(): int
      reads this
    {
      room - size
    }

    constructor (room: nat)
      ensures Valid() && Contents() == [] && Capacity() == room && fresh(buf)
    {
      buf := new Byte[FB_SIZE](_ => 0);
      size, fsize, file := 0, 0, [];
      this.room := room;
    }

    /** write() to the file: the number of octets written. */
    method Write(data: Bytes) returns (len: nat)
      modifies this`file, this`room
      ensures len == Min(|data|, old(room))
      ensures file == old(file) + data[..len] && room == old(room) - len
    {
      len := Min(|data|, room);
      file := file + data[..len];
      room := room - len;
    }

    method Flush() returns (ok: bool)
      requires Valid()
      modifies this
      ensures ok <==> old(size) <= old(room)
      ensures ok ==> Valid() && size == 0
      ensures ok ==> Contents() == old(Contents()) && Capacity() == old(Capacity())
    {
      if size == 0 {
        return true;
      }
      var len := Write(buf[..size]);
      if len != size {
        return false;
      }
      fsize := fsize + len;
      size := 0;
      return true;
    }

    method GetFileSize() returns (n: nat)
      requires Valid()
      ensures n == |Contents()|
    {
      n := fsize + size;
    }

    /** fb_request: where to put the next `count` octets, or nothing. */
    method Request(count: nat) returns (pos: Option<nat>)
      requires Valid()
      modifies this
      ensures pos.Some? ==> Valid() && size == pos.value + count && count <= FB_SIZE
      ensures pos.Some? ==> file + buf[..pos.value] == old(Contents())
      ensures pos.Some? ==> Capacity() == old(Capacity()) - count
      ensures old(Capacity()) >= 0 && count <= FB_SIZE ==> pos.Some?
    {
      if size + count < FB_SIZE {
        pos := Some(size);
        size := size + count;
      } else {
        var ok := Flush();
        if !ok || count > FB_SIZE {
          return None;
        }
        size := count;
        return Some(0);
      }
    }

    /** memcpy or strcpy to a place that was requested. */
    method Fill(pos: nat, data: Bytes)
      requires buf.Length == FB_SIZE && pos + |data| <= FB_SIZE
      modifies buf
      ensures buf[..pos + |data|] == old(buf[..pos]) + data
    {
      for i := 0 to |data|
        invariant buf[..pos] == old(buf[..pos])
        invariant forall j :: 0 <= j < i ==> buf[pos + j] == data[j]
      {
        buf[pos + i] := data[i];
      }
      assert buf[pos..pos + |data|] == data;
      assert buf[..pos + |data|] == buf[..pos] + buf[pos..pos + |data|];
    }

    /** A request that is filled at once. */
    method Put(data: Bytes) returns (ok: bool)
      requires Valid()
      modifies this, buf
      ensures ok ==> Valid() && Contents() == old(Contents()) + data
      ensures ok ==> Capacity() == old(Capacity()) - |data| && |data| <= FB_SIZE
      ensures old(Capacity()) >= 0 && |data| <= FB_SIZE ==> ok
    {
      var pos := Request(|data|);
      ok := pos.Some?;
      if ok {
        Fill(pos.value, data);
      }
    }

    /** fb_request_field: one octet for the token and `data` after it. */
    method PutField(token: Byte, data: Bytes) returns (ok: bool)
      requires Valid()
      modifies this, buf
      ensures ok ==> Valid() && Contents() == old(Contents()) + [Token(token)] + data
      ensures ok ==> Capacity() == old(Capacity()) - 1 - |data| && 1 + |data| <= FB_SIZE
      ensures old(Capacity()) >= 0 && 1 + |data| <= FB_SIZE ==> ok
    {
      var pos := Request(|data| + 1);
      ok := pos.Some?;
      if ok {
        buf[pos.value] := Token(token);
        assert buf[..pos.value + 1] == buf[..pos.value] + [Token(token)];
        Fill(pos.value + 1, data);
      }
    }

    /** fb_copy: past the buffer. */
    method Copy(data: Bytes) returns (ok: bool)
      requires Valid()
      modifies this
      ensures ok <==> old(Capacity()) >= |data|
      ensures ok ==> Valid() && Contents() == old(Contents()) + data
      ensures ok ==> Capacity() == old(Capacity()) - |data|
    {
      ok := Flush();
      if ok {
        var len := Write(data);
        ok := len == |data|;
        if ok {
          fsize := fsize + len;
        }
      }
    }

    /** fb_put_uintvar and fb_put_value_length, which encode in place. */
    method PutNumber(encoded: Bytes) returns (ok: bool)
      requires Valid() && |encoded| <= MAX_ENC_VALUE_BYTES
      modifies this, buf
      ensures ok ==> Valid() && Contents() == old(Contents()) + encoded
      ensures ok ==> Capacity() == old(Capacity()) - |encoded|
      ensures old(Capacity()) >= 0 ==> ok
    {
      ok := true;
      if size + MAX_ENC_VALUE_BYTES > FB_SIZE {
        ok := Flush();
      }
      if ok {
        Fill(size, encoded);
        size := size + |encoded|;
      }
    }

    method PutUintvar(v: nat) returns (ok: bool)
      requires Valid() && v < 0x1_0000_0000
      modifies this, buf
      ensures ok ==> Valid() && Contents() == old(Contents()) + Uintvar(v)
      ensures ok ==> Capacity() == old(Capacity()) - |Uintvar(v)|
      ensures old(Capacity()) >= 0 ==> ok
    {
      UintvarFits(v);
      ok := PutNumber(Uintvar(v));
    }

    method PutValueLength(v: nat) returns (ok: bool)
      requires Valid() && v < 0x1_0000_0000
      modifies this, buf
      ensures ok ==> Valid() && Contents() == old(Contents()) + ValueLength(v)
      ensures ok ==> Capacity() == old(Capacity()) - |ValueLength(v)|
      ensures old(Capacity()) >= 0 ==> ok
    {
      UintvarFits(v);
      ok := PutNumber(ValueLength(v));
    }
  }

  /** The high bit marks a well-known name. */
  function Token(t: Byte): Byte {
    if t < 128 then t + 128 else t
  }
}
