/** Table records: a variable-width offset header followed by the fields. */
module Records {
  import opened Values
  import opened KeyCodec

  /** A field is NULL or a string with its NUL terminator. */
  type Field = f: Option<Bytes> | f.Some? ==> f.value != [] witness None

  function Size(f: Field): nat { if f.Some? then |f.value| else 0 }

  function Data(fs: seq<Field>): Bytes {
    if fs == [] then [] else Data(fs[..|fs| - 1]) + (if fs[|fs| - 1].Some? then fs[|fs| - 1].value else [])
  }

  /** The width the writer chooses, before it knows the size of the header. */
  function WriterWidth(nByte: nat, nField: nat): (w: nat)
    ensures 1 <= w <= 3
  {
    if nByte + nField + 1 < 256 then 1 else if nByte + 2 * nField + 2 < 65536 then 2 else 3
  }

  /** The width the reader infers from the size of the whole record. */
  function ReaderWidth(size: nat): (w: nat)
    ensures 1 <= w <= 3
  {
    if size < 256 then 1 else if size < 65536 then 2 else 3
  }

  /** Both are the same, and offsets up to the size fit unless the record has 2^24 bytes or more. */
  lemma WidthsAgree(nByte: nat, nField: nat)
    ensures var w := WriterWidth(nByte, nField);
            var size := nByte + w * (nField + 1);
            ReaderWidth(size) == w && (size < 0x100_0000 ==> (w == 1 ==> size < 0x100) && (w == 2 ==> size < 0x1_0000))
  {
  }

  /** What the smaller widths can hold. */
  function Room(w: nat): nat
    requires 1 <= w <= 2
  {
    if w == 1 then 0x100 else 0x1_0000
  }

  /** Both pick the narrowest width that can hold the size of the record, or three bytes. */
  lemma WidthsAreLeast(nByte: nat, nField: nat, size: nat)
    ensures var w := WriterWidth(nByte, nField);
            && (w < 3 ==> nByte + w * (nField + 1) < Room(w))
            && (w > 1 ==> nByte + (w - 1) * (nField + 1) >= Room(w - 1))
    ensures var w := ReaderWidth(size); (w < 3 ==> size < Room(w)) && (w > 1 ==> size >= Room(w - 1))
  {
  }

  /** The low `w` bytes of `x`, least significant first. */
  function LowBytes(x: nat, w: nat): (b: Bytes)
    requires 1 <= w <= 3
    ensures |b| == w
  {
    [x % 0x100] + (if w > 1 then [x / 0x100 % 0x100] else []) + (if w > 2 then [x / 0x1_0000 % 0x100] else [])
  }

  function FromBytes(b: Bytes): nat
    requires 1 <= |b| <= 3
  {
    b[0] as nat + (if |b| > 1 then b[1] as nat * 0x100 else 0) + (if |b| > 2 then b[2] as nat * 0x1_0000 else 0)
  }

  lemma LowBytesBack(x: nat, w: nat)
    requires 1 <= w <= 3 && (w == 1 ==> x < 0x100) && (w == 2 ==> x < 0x1_0000) && x < 0x100_0000
    ensures FromBytes(LowBytes(x, w)) == x
  {
    assert x == x % 0x100 + 0x100 * (x / 0x100 % 0x100) + 0x1_0000 * (x / 0x1_0000);
  }

  /** Header entries 0 up to `k`, the first at offset `addr`. */
  function Header(fs: seq<Field>, w: nat, addr: nat, k: nat): (h: Bytes)
    requires 1 <= w <= 3 && k <= |fs| + 1
    ensures |h| == w * k
  {
    if k == 0 then [] else Header(fs, w, addr, k - 1) + LowBytes(addr + |Data(fs[..k - 1])|, w)
  }

  function Record(fs: seq<Field>): Bytes {
    var w := WriterWidth(|Data(fs)|, |fs|);
    Header(fs, w, w * (|fs| + 1), |fs| + 1) + Data(fs)
  }

  lemma DataSnoc(fs: seq<Field>, k: nat)
    requires k < |fs|
    ensures Data(fs[..k + 1]) == Data(fs[..k]) + (if fs[k].Some? then fs[k].value else [])
  {
    assert fs[..k + 1][..k] == fs[..k];
  }

  lemma {:induction false} DataGrows(fs: seq<Field>, k: nat)
    requires k <= |fs|
    ensures |Data(fs[..k])| <= |Data(fs)| && Data(fs)[..|Data(fs[..k])|] == Data(fs[..k])
    decreases |fs| - k
  {
    if k == |fs| {
      assert fs[..k] == fs;
    } else {
      DataSnoc(fs, k);
      DataGrows(fs, k + 1);
      assert Data(fs[..k]) == Data(fs[..k + 1])[..|Data(fs[..k])|];
    }
  }

  /** Writes the low bytes of `addr`. */
  method PutOffset(buffer: array<Byte>, at: nat, addr: nat, idxWidth: nat) returns (next: nat)
    requires 1 <= idxWidth <= 3 && at + idxWidth <= buffer.Length
    modifies buffer
    ensures next == at + idxWidth && buffer[..next] == old(buffer[..at]) + LowBytes(addr, idxWidth)
  {
    next := at;
    buffer[next] := addr % 0x100;
    next := next + 1;
    if idxWidth > 1 {
      buffer[next] := addr / 0x100 % 0x100;
      next := next + 1;
      if idxWidth > 2 {
        buffer[next] := addr / 0x1_0000 % 0x100;
        next := next + 1;
      }
    }
  }

  /** OP_MakeRecord: sizes, width, header, data; the buffer has just the computed size. */
  method MakeRecord(fs: seq<Field>) returns (record: Bytes)
    ensures record == Record(fs)
  {
    hide WriterWidth, Data, Header;
    var nField, nByte, i := |fs|, 0, 0;
    NoData();
    assert fs[..0] == [];
    while i < nField
      invariant 0 <= i <= nField && nByte == |Data(fs[..i])|
    {
      DataSnoc(fs, i);
      nByte := nByte + Size(fs[i]);
      i := i + 1;
    }
    assert fs[..i] == fs;
    var idxWidth := WriterWidth(nByte, nField);
    var start := idxWidth * (nField + 1);
    var buffer := new Byte[nByte + start](_ => 0);
    var j := WriteHeader(fs, idxWidth, start, buffer);
    j := WriteData(fs, buffer, j);
    record := buffer[..];
    assert buffer[..j] == buffer[..];
  }

  lemma NoData()
    ensures Data([]) == []
  {
  }

  lemma HeaderSnoc(fs: seq<Field>, w: nat, addr: nat, k: nat)
    requires 1 <= w <= 3 && k <= |fs|
    ensures Header(fs, w, addr, k + 1) == Header(fs, w, addr, k) + LowBytes(addr + |Data(fs[..k])|, w)
    ensures Header(fs, w, addr, 0) == []
  {
  }

  method WriteHeader(fs: seq<Field>, idxWidth: nat, start: nat, buffer: array<Byte>) returns (j: nat)
    requires 1 <= idxWidth <= 3 && start == idxWidth * (|fs| + 1) <= buffer.Length
    modifies buffer
    ensures j == start && buffer[..j] == Header(fs, idxWidth, start, |fs| + 1)
  {
    hide LowBytes, Data, Header;
    j := 0;
    var addr, i := start, 0;
    NoData();
    assert fs[..0] == [];
    HeaderSnoc(fs, idxWidth, start, 0);
    while i < |fs|
      invariant 0 <= i <= |fs| && j == |Header(fs, idxWidth, start, i)| && addr == start + |Data(fs[..i])|
      invariant j <= buffer.Length && buffer[..j] == Header(fs, idxWidth, start, i)
    {
      HeaderRoom(idxWidth, i, |fs|);
      HeaderSnoc(fs, idxWidth, start, i);
      DataSnoc(fs, i);
      j := PutOffset(buffer, j, addr, idxWidth);
      addr := addr + Size(fs[i]);
      i := i + 1;
    }
    HeaderRoom(idxWidth, i, |fs|);
    HeaderSnoc(fs, idxWidth, start, i);
    j := PutOffset(buffer, j, addr, idxWidth);
  }

  method WriteData(fs: seq<Field>, buffer: array<Byte>, at: nat) returns (j: nat)
    requires at + |Data(fs)| <= buffer.Length
    modifies buffer
    ensures j == at + |Data(fs)| && buffer[..j] == old(buffer[..at]) + Data(fs)
  {
    hide Data;
    j := at;
    var i := 0;
    NoData();
    assert fs[..0] == [];
    while i < |fs|
      invariant 0 <= i <= |fs| && j == at + |Data(fs[..i])| && j <= buffer.Length
      invariant buffer[..j] == old(buffer[..at]) + Data(fs[..i])
    {
      DataSnoc(fs, i);
      DataGrows(fs, i + 1);
      if fs[i].Some? {
        j := Copy(fs[i].value, buffer, j);
      }
      i := i + 1;
    }
    assert fs[..i] == fs;
  }

  lemma HeaderRoom(w: nat, i: nat, n: nat)
    requires 1 <= w <= 3 && i <= n
    ensures w * i + w <= w * (n + 1)
  {
    if w == 1 {
    } else if w == 2 {
    } else {
      assert w == 3;
    }
  }

  /** What OP_Column finds. `PastRecord` stands for a record that ends inside the two header entries
      it copies: the test lets it pass, and what it finds depends on the bytes behind the record. */
  datatype Found = NullValue | FieldValue(z: Bytes) | Corrupt | PastRecord

  /** OP_Column `p2` on a stored record. */
  function Column(record: Bytes, p2: nat): Found {
    var w := ReaderWidth(|record|);
    if record == [] then NullValue
    else if |record| < w * (p2 + 1) then Corrupt
    else if |record| < w * p2 + 2 * w then PastRecord
    else
      var offset, end := FromBytes(record[w * p2..w * p2 + w]), FromBytes(record[w * p2 + w..w * p2 + 2 * w]);
      if end < offset || end > |record| then Corrupt
      else if end == offset then NullValue
      else FieldValue(record[offset..end])
  }

  /** A record too short for both offsets of a column; its first offset may still be there. */
  lemma ColumnOfShort(record: Bytes, p2: nat)
    requires record != []
    ensures var w := if |record| < 0x100 then 1 else if |record| < 0x1_0000 then 2 else 3;
            && (|record| < w * (p2 + 1) ==> Column(record, p2) == Corrupt)
            && (w * (p2 + 1) <= |record| < w * (p2 + 2) <==> Column(record, p2) == PastRecord)
  {
    hide FromBytes;
    var w := ReaderWidth(|record|);
    assert w * p2 + 2 * w == w * (p2 + 2);
  }

  lemma {:induction false} HeaderAt(fs: seq<Field>, w: nat, addr: nat, k: nat, n: nat)
    requires 1 <= w <= 3 && k < n <= |fs| + 1
    ensures w * k + w <= w * n
    ensures Header(fs, w, addr, n)[w * k..w * k + w] == LowBytes(addr + |Data(fs[..k])|, w)
    decreases n
  {
    hide LowBytes;
    HeaderRoom(w, k, n - 1);
    if k < n - 1 {
      HeaderAt(fs, w, addr, k, n - 1);
      var h := Header(fs, w, addr, n - 1);
      assert Header(fs, w, addr, n)[w * k..w * k + w] == h[w * k..w * k + w];
    }
  }

  /** Two neighbouring header entries give the column. */
  lemma ColumnAt(record: Bytes, w: nat, p2: nat, from: nat, to: nat)
    requires w == ReaderWidth(|record|) && w * (p2 + 2) <= |record|
    requires w * p2 + w == w * (p2 + 1) && w * (p2 + 1) + w == w * (p2 + 2)
    requires record[w * p2..w * p2 + w] == LowBytes(from, w)
             && record[w * (p2 + 1)..w * (p2 + 1) + w] == LowBytes(to, w)
    requires from <= to <= |record| < 0x100_0000 && (w == 1 ==> |record| < 0x100) && (w == 2 ==> |record| < 0x1_0000)
    ensures Column(record, p2) == if from == to then NullValue else FieldValue(record[from..to])
  {
    hide LowBytes, FromBytes, ReaderWidth;
    LowBytesBack(from, w);
    LowBytesBack(to, w);
    var a, b := w * p2, w * (p2 + 1);
    assert record[a + w..a + 2 * w] == record[b..b + w];
  }

  /** Every field of a record of fewer than 2^24 bytes reads back, NULL distinct from the empty string. */
  lemma ColumnReadsBack(fs: seq<Field>, k: nat)
    requires k < |fs| && |Record(fs)| < 0x100_0000
    ensures Column(Record(fs), k) == if fs[k].Some? then FieldValue(fs[k].value) else NullValue
  {
    hide LowBytes, Header, WriterWidth, ReaderWidth, Column, Data;
    var w, n, r, d := WriterWidth(|Data(fs)|, |fs|), |fs| + 1, Record(fs), Data(fs);
    var size := w * n;
    var h := Header(fs, w, size, n);
    WidthsAgree(|d|, |fs|);
    assert r == h + d && |h| == size && |r| == size + |d|;
    HeaderAt(fs, w, size, k, n);
    HeaderAt(fs, w, size, k + 1, n);
    Twice(w, k, n);
    DataSnoc(fs, k);
    DataGrows(fs, k);
    DataGrows(fs, k + 1);
    var from, to, a, b := |Data(fs[..k])|, |Data(fs[..k + 1])|, w * k, w * (k + 1);
    InHeader(r, h, d, a, w);
    InHeader(r, h, d, b, w);
    ColumnAt(r, w, k, size + from, size + to);
    assert r[size + from..size + to] == d[from..to] == d[..to][from..];
  }

  lemma InHeader(r: Bytes, h: Bytes, d: Bytes, a: nat, w: nat)
    requires r == h + d && a + w <= |h|
    ensures r[a..a + w] == h[a..a + w]
  {
  }

  lemma Twice(w: nat, k: nat, n: nat)
    requires 1 <= w <= 3 && k + 2 <= n
    ensures w * (k + 1) == w * k + w && w * (k + 2) == w * (k + 1) + w && w * (k + 2) <= w * n
  {
    if w == 1 {
    } else if w == 2 {
    } else {
      assert w == 3;
    }
  }
}
