/** The byte layouts of the binary host commands of src/xs/DeviceConnection.ts
    (`sendBinaryCommand`, `doGetPreference`, `doSetPreference`, `doInstall`)
    and of the opcode-5 reply its `_onMessage` reads back. Every layout is
    given here as a value; the class in device_connection.dfy builds each one
    in a `Uint8Array` and is proved to produce exactly these bytes. */
module BinaryFrames {
  import opened Wrappers

  newtype byte = x: int | 0 <= x < 256

  /** Storing a number into a `Uint8Array` element keeps it modulo 2^8. */
  function ToUint8(x: int): (b: byte)
    ensures (b as int - x) % 256 == 0
  {
    (x % 256) as byte
  }

  /** ToInt32, the conversion `>>` and `&` apply to their operands. */
  function ToInt32(x: int): (r: int)
    ensures -0x8000_0000 <= r < 0x8000_0000
    ensures (r - x) % 0x1_0000_0000 == 0
  {
    var m := x % 0x1_0000_0000;
    if m >= 0x8000_0000 then m - 0x1_0000_0000 else m
  }

  /** `(x >> shift) & 0xff` on the 32-bit value of `x`, written with the
      divisor `2^shift`: `>>` floors, and `& 0xff` of a two's-complement
      value is its remainder modulo 256. */
  function ShiftedByte(x: int, divisor: nat): byte
    requires divisor in {1, 0x100, 0x1_0000, 0x100_0000}
  {
    ((ToInt32(x) / divisor) % 256) as byte
  }

  /** `msg[1] = requestID >> 8` and `msg[2] = requestID & 0xff`. */
  function IdHi(id: int): byte {
    ToUint8(ToInt32(id) / 0x100)
  }

  function IdLo(id: int): byte {
    ShiftedByte(id, 1)
  }

  /** `DataView.getUint16`, big-endian. */
  function Uint16(hi: byte, lo: byte): (v: int)
    ensures 0 <= v < 0x1_0000
  {
    hi as int * 256 + lo as int
  }

  /** `DataView.getInt16`, big-endian two's complement. */
  function Int16(hi: byte, lo: byte): (v: int)
    ensures -0x8000 <= v < 0x8000
    ensures (v - Uint16(hi, lo)) % 0x1_0000 == 0
  {
    var u := Uint16(hi, lo);
    if u >= 0x8000 then u - 0x1_0000 else u
  }

  /** The wire form of a request id is its value modulo 2^16: ids from
      65536 on never read back as themselves. */
  lemma WireId(id: nat)
    ensures Uint16(IdHi(id), IdLo(id)) == id % 0x1_0000
    ensures Uint16(IdHi(id), IdLo(id)) == id <==> id < 0x1_0000
  {
    var y := ToInt32(id);
    assert IdHi(id) as int == (y / 0x100) % 0x100 && IdLo(id) as int == y % 0x100;
    assert Uint16(IdHi(id), IdLo(id)) == y % 0x1_0000 by { ByteSplit(y); }
    assert y % 0x1_0000 == id % 0x1_0000 by { Int32Low16(id); }
  }

  /** The low 16 bits of a value are its two low bytes. */
  lemma ByteSplit(y: int)
    ensures ((y / 0x100) % 0x100) * 0x100 + y % 0x100 == y % 0x1_0000
  {
    var q := y / 0x100;
    assert y == q * 0x100 + y % 0x100;
    assert q == (q / 0x100) * 0x100 + q % 0x100;
    assert y == (q / 0x100) * 0x1_0000 + ((q % 0x100) * 0x100 + y % 0x100);
  }

  /** The low 32 bits of a value are its two low 16-bit halves. */
  lemma HalfSplit(y: int)
    ensures ((y / 0x1_0000) % 0x1_0000) * 0x1_0000 + y % 0x1_0000 == y % 0x1_0000_0000
  {
    var q := y / 0x1_0000;
    assert y == q * 0x1_0000 + y % 0x1_0000;
    assert q == (q / 0x1_0000) * 0x1_0000 + q % 0x1_0000;
    assert y == (q / 0x1_0000) * 0x1_0000_0000 + ((q % 0x1_0000) * 0x1_0000 + y % 0x1_0000);
  }

  /** ToInt32 keeps a value modulo 2^32, so also modulo 2^16. */
  lemma Int32Low(x: int)
    ensures ToInt32(x) % 0x1_0000_0000 == x % 0x1_0000_0000
  {
    var m := x % 0x1_0000_0000;
    if m >= 0x8000_0000 {
      assert ToInt32(x) == m - 0x1_0000_0000;
    }
  }

  lemma Int32Low16(x: int)
    ensures ToInt32(x) % 0x1_0000 == x % 0x1_0000
  {
    var y := ToInt32(x);
    Int32Low(x);
    var k := y / 0x1_0000_0000;
    var j := x / 0x1_0000_0000;
    assert y == k * 0x1_0000_0000 + x % 0x1_0000_0000;
    assert x == j * 0x1_0000_0000 + x % 0x1_0000_0000;
    assert y == x + (k - j) * 0x1_0000 * 0x1_0000;
  }

  /** The frame `sendBinaryCommand(command, payload, callback)` sends when
      `requestID` is `id`: the opcode; then the request id big-endian when
      there is a callback, or two zero bytes when there is only a payload;
      then the payload from offset 3. */
  function BinaryFrame(command: int, id: int, callback: bool, payload: Option<seq<byte>>): (r: seq<byte>)
    ensures |r| == if payload.Some? then 3 + |payload.value| else if callback then 3 else 1
    ensures r[0] == ToUint8(command)
    ensures callback ==> r[1] == IdHi(id) && r[2] == IdLo(id)
    ensures !callback && payload.Some? ==> r[1] == 0 && r[2] == 0
    ensures payload.Some? ==> r[3..] == payload.value
  {
    var header := if callback then [ToUint8(command), IdHi(id), IdLo(id)]
                  else if payload.Some? then [ToUint8(command), 0, 0]
                  else [ToUint8(command)];
    header + (if payload.Some? then payload.value else [])
  }

  // ------------------------------------------------------------------ replies

  /** What `_onMessage` reads from an opcode-5 frame. */
  datatype Reply = Reply(id: int, code: int, data: seq<byte>)

  /** A `DataView` read past the end of the buffer throws a RangeError. */
  datatype RangeError = RangeError

  /** The binary branch of `_onMessage`: `None` for an opcode other than 5,
      which it ignores. */
  function DecodeBinary(data: seq<byte>): (r: Result<Option<Reply>, RangeError>)
    ensures r.Err? <==> |data| == 0 || (data[0] == 5 && |data| < 5)
    ensures r.Ok? ==> (r.value.Some? <==> data[0] == 5)
    ensures r.Ok? && r.value.Some? ==>
      && 0 <= r.value.value.id < 0x1_0000
      && -0x8000 <= r.value.value.code < 0x8000
      && data == [5] + BigEndian16(r.value.value.id) + BigEndian16(r.value.value.code % 0x1_0000) + r.value.value.data
  {
    if |data| == 0 then Err(RangeError)
    else if data[0] != 5 then Ok(None)
    else if |data| < 5 then Err(RangeError)
    else
      assert data == [5] + data[1..3] + data[3..5] + data[5..];
      Int16Bytes(data[3], data[4]);
      Ok(Some(Reply(Uint16(data[1], data[2]), Int16(data[3], data[4]), data[5..])))
  }

  function BigEndian16(v: int): (r: seq<byte>)
    requires 0 <= v < 0x1_0000
    ensures |r| == 2 && Uint16(r[0], r[1]) == v
  {
    [(v / 256) as byte, (v % 256) as byte]
  }

  lemma Int16Bytes(hi: byte, lo: byte)
    ensures BigEndian16(Int16(hi, lo) % 0x1_0000) == [hi, lo]
  {
    var u := hi as int * 256 + lo as int;
    assert Int16(hi, lo) % 0x1_0000 == u;
    assert u / 256 == hi as int && u % 256 == lo as int;
  }

  /** The reply a device sends for request `id` with status `code`. */
  function EncodeReply(rep: Reply): seq<byte>
    requires 0 <= rep.id < 0x1_0000 && -0x8000 <= rep.code < 0x8000
  {
    [5] + BigEndian16(rep.id) + BigEndian16(rep.code % 0x1_0000) + rep.data
  }

  /** `_onMessage` reads back every well-formed reply. */
  lemma ReplyRoundTrip(rep: Reply)
    requires 0 <= rep.id < 0x1_0000 && -0x8000 <= rep.code < 0x8000
    ensures DecodeBinary(EncodeReply(rep)) == Ok(Some(rep))
  {
    var b := EncodeReply(rep);
    var c := BigEndian16(rep.code % 0x1_0000);
    assert b[0] == 5 && b[3] == c[0] && b[4] == c[1] && b[5..] == rep.data;
    assert Int16(c[0], c[1]) == rep.code;
  }

  // ------------------------------------------------------------- preferences

  /** Each character of `s` stored into a `Uint8Array` by its code. A model
      character is a Unicode scalar value, so one above U+FFFF is one code
      here where JavaScript has two surrogate halves. */
  function CharBytes(s: string): (r: seq<byte>)
    ensures |r| == |s| && forall i :: 0 <= i < |s| ==> r[i] == ToUint8(s[i] as int)
  {
    seq(|s|, i requires 0 <= i < |s| => ToUint8(s[i] as int))
  }

  /** The payload of `doGetPreference`: domain, NUL, key, NUL. */
  function GetPreferencePayload(domain: string, key: string): (r: seq<byte>)
    ensures |r| == |domain| + 1 + |key| + 1
  {
    CharBytes(domain) + [0] + CharBytes(key) + [0]
  }

  /** The payload of `doSetPreference`: domain, NUL, key, NUL, value, NUL. */
  function SetPreferencePayload(domain: string, key: string, value: string): (r: seq<byte>)
    ensures |r| == |domain| + 1 + |key| + 1 + |value| + 1
  {
    CharBytes(domain) + [0] + CharBytes(key) + [0] + CharBytes(value) + [0]
  }

  /** Text the payloads carry unchanged: 8-bit codes other than NUL. */
  predicate NulFreeLatin1(s: string) {
    forall i :: 0 <= i < |s| ==> 0 < s[i] as int < 256
  }

  /** How a device reads a NUL-terminated string: the codes up to the first
      NUL, and what follows that NUL. */
  function ReadCString(b: seq<byte>): (string, seq<byte>) {
    if b == [] then ([], [])
    else if b[0] == 0 then ([], b[1..])
    else
      var (s, rest) := ReadCString(b[1..]);
      ([b[0] as int as char] + s, rest)
  }

  lemma {:induction false} ReadCStringOf(s: string, rest: seq<byte>)
    requires NulFreeLatin1(s)
    ensures ReadCString(CharBytes(s) + [0] + rest) == (s, rest)
  {
    if s != [] {
      var b := CharBytes(s) + [0] + rest;
      assert b[1..] == CharBytes(s[1..]) + [0] + rest;
      ReadCStringOf(s[1..], rest);
      assert b[0] as int as char == s[0];
      assert [s[0]] + s[1..] == s;
    } else {
      assert CharBytes(s) + [0] + rest == [0] + rest;
    }
  }

  /** A device reading the preference payloads field by field gets back
      what the host passed, when that text is NUL-free 8-bit text. */
  lemma PreferencePayloadsRoundTrip(domain: string, key: string, value: string)
    requires NulFreeLatin1(domain) && NulFreeLatin1(key) && NulFreeLatin1(value)
    ensures ReadCString(GetPreferencePayload(domain, key)) == (domain, CharBytes(key) + [0])
    ensures ReadCString(CharBytes(key) + [0]) == (key, [])
    ensures var (d, r1) := ReadCString(SetPreferencePayload(domain, key, value));
            var (k, r2) := ReadCString(r1);
            var (v, r3) := ReadCString(r2);
            d == domain && k == key && v == value && r3 == []
  {
    ReadCStringOf(domain, CharBytes(key) + [0]);
    assert GetPreferencePayload(domain, key) == CharBytes(domain) + [0] + (CharBytes(key) + [0]);
    ReadCStringOf(key, []);
    assert CharBytes(key) + [0] == CharBytes(key) + [0] + [];
    var tail := CharBytes(key) + [0] + CharBytes(value) + [0];
    assert SetPreferencePayload(domain, key, value) == CharBytes(domain) + [0] + tail;
    ReadCStringOf(domain, tail);
    ReadCStringOf(key, CharBytes(value) + [0]);
    assert tail == CharBytes(key) + [0] + (CharBytes(value) + [0]);
    ReadCStringOf(value, []);
    assert CharBytes(value) + [0] == CharBytes(value) + [0] + [];
  }

  // ----------------------------------------------------------------- install

  const ChunkSize: nat := 512

  /** `offset` as four bytes, most significant first:
      `(offset >> 24) & 0xff`, `(offset >> 16) & 0xff`, `(offset >> 8) & 0xff`,
      `offset & 0xff`. */
  function Be32(offset: int): (r: seq<byte>)
    ensures |r| == 4
  {
    [ShiftedByte(offset, 0x100_0000), ShiftedByte(offset, 0x1_0000), ShiftedByte(offset, 0x100), ShiftedByte(offset, 1)]
  }

  function Be32Value(b: seq<byte>): int
    requires |b| == 4
  {
    b[0] as int * 0x100_0000 + b[1] as int * 0x1_0000 + b[2] as int * 0x100 + b[3] as int
  }

  /** The four offset bytes hold the offset modulo 2^32. */
  lemma Be32RoundTrip(offset: int)
    ensures Be32Value(Be32(offset)) == offset % 0x1_0000_0000
  {
    var y := ToInt32(offset);
    var b := Be32(offset);
    var h := y / 0x1_0000;
    assert b[0] as int == (h / 0x100) % 0x100 by { DivDiv(y, 0x1_0000); }
    assert b[1] as int == h % 0x100;
    assert b[0] as int * 0x100 + b[1] as int == h % 0x1_0000 by { ByteSplit(h); }
    assert b[2] as int * 0x100 + b[3] as int == y % 0x1_0000 by { ByteSplit(y); }
    assert Be32Value(b) == y % 0x1_0000_0000 by { HalfSplit(y); }
    Int32Low(offset);
  }

  lemma DivDiv(y: int, a: int)
    requires a == 0x100 || a == 0x1_0000
    ensures y / (a * 0x100) == (y / a) / 0x100
  {
    var q := (y / a) / 0x100;
    var r := y - q * (a * 0x100);
    if a == 0x100 {
      assert r == 0x100 * ((y / 0x100) % 0x100) + y % 0x100;
      assert y / 0x1_0000 == q;
    } else {
      assert r == 0x1_0000 * ((y / 0x1_0000) % 0x100) + y % 0x1_0000;
      assert y / 0x100_0000 == q;
    }
  }

  /** `Math.ceil(n / 512)`: the number of frames `doInstall` sends. */
  function ChunkCount(n: nat): (c: nat)
    ensures c * ChunkSize >= n && (c == 0 || (c - 1) * ChunkSize < n)
  {
    (n + ChunkSize - 1) / ChunkSize
  }

  function Min(a: int, b: int): int {
    if a < b then a else b
  }

  /** The bytes chunk `k` carries: `[512k, min(n, 512k + 512))`. */
  function ChunkData(data: seq<byte>, k: nat): (r: seq<byte>)
    requires k < ChunkCount(|data|)
    ensures 1 <= |r| <= ChunkSize
  {
    data[k * ChunkSize .. Min(|data|, k * ChunkSize + ChunkSize)]
  }

  /** The payload of chunk `k`: its offset, then its bytes. */
  function InstallPayload(offset: int, data: seq<byte>, k: nat): seq<byte>
    requires k < ChunkCount(|data|)
  {
    Be32(offset + k * ChunkSize) + ChunkData(data, k)
  }

  function Flatten(ss: seq<seq<byte>>): seq<byte> {
    if ss == [] then [] else Flatten(ss[..|ss| - 1]) + ss[|ss| - 1]
  }

  /** The bytes of the first `k` chunks are the first `min(n, 512k)` bytes. */
  lemma {:induction false} ChunksPrefix(data: seq<byte>, k: nat)
    requires k <= ChunkCount(|data|)
    ensures Flatten(seq(k, j requires 0 <= j < k => ChunkData(data, j))) == data[..Min(|data|, k * ChunkSize)]
  {
    if k > 0 {
      var s := seq(k, j requires 0 <= j < k => ChunkData(data, j));
      ChunksPrefix(data, k - 1);
      assert s[..k - 1] == seq(k - 1, j requires 0 <= j < k - 1 => ChunkData(data, j));
      assert (k - 1) * ChunkSize < |data|;
      assert data[..Min(|data|, k * ChunkSize)] == data[..(k - 1) * ChunkSize] + ChunkData(data, k - 1);
    }
  }

  /** The install chunks cover the image exactly: their byte ranges,
      concatenated in order, are the image. */
  lemma InstallReassembles(offset: int, data: seq<byte>)
    ensures var n := ChunkCount(|data|);
            Flatten(seq(n, k requires 0 <= k < n => InstallPayload(offset, data, k)[4..])) == data
  {
    var n := ChunkCount(|data|);
    var a := seq(n, k requires 0 <= k < n => InstallPayload(offset, data, k)[4..]);
    var b := seq(n, k requires 0 <= k < n => ChunkData(data, k));
    assert a == b;
    ChunksPrefix(data, n);
  }

  /** Chunk `k` names the offset `offset + 512k`, modulo 2^32. */
  lemma InstallOffsets(offset: int, data: seq<byte>, k: nat)
    requires k < ChunkCount(|data|)
    ensures Be32Value(InstallPayload(offset, data, k)[..4]) == (offset + k * ChunkSize) % 0x1_0000_0000
  {
    assert InstallPayload(offset, data, k)[..4] == Be32(offset + k * ChunkSize);
    Be32RoundTrip(offset + k * ChunkSize);
  }
}
