/**
 * The instance-reference bead of the OpenFlight reader and writer: a record
 * whose payload is two bytes of padding followed by the referenced instance
 * definition's index as a big-endian signed 16-bit integer.
 */
module FltInstance {
  import opened Wrappers

  /** One byte of a record's datagram. */
  type Byte = b: int | 0 <= b < 256

  const Int16Min: int := -0x8000
  const Int16Max: int := 0x7FFF

  /**
   * The opcodes this model tells apart.  Their numeric values live in
   * fltOpcode.h, which is not part of this model.
   */
  datatype Opcode = InstanceRefOpcode | OtherOpcode(code: nat)

  /** FE_ok or one of the other error kinds of fltError.h, which is not part of this model. */
  datatype FltError = FeOk | FeError(code: nat)

  /** What the record writer is asked to put into the file, in order. */
  datatype WriteEvent =
    | InstanceDefinition(index: int)   // write_instance_def for the header's definition at index
    | RecordAndChildren                // the bead's own record, its ancillary records and its children

  /** The 16-bit two's complement value a C++ `int` becomes when it is stored as a PN_int16. */
  function Wrap16(v: int): (r: int)
    ensures Int16Min <= r <= Int16Max
    ensures (r - v) % 0x1_0000 == 0
    ensures Int16Min <= v <= Int16Max ==> r == v
  {
    var u := v % 0x1_0000;
    if u > Int16Max then u - 0x1_0000 else u
  }

  /** add_be_int16: the high byte, then the low byte, of the value's 16-bit two's complement. */
  function BeInt16Bytes(v: int): (r: seq<Byte>)
    ensures |r| == 2
  {
    var u := v % 0x1_0000;
    [u / 0x100, u % 0x100]
  }

  /** get_be_int16: two bytes, high byte first, read as a signed 16-bit value. */
  function ReadBeInt16(hi: Byte, lo: Byte): (r: int)
    ensures Int16Min <= r <= Int16Max
    ensures hi < 0x80 <==> r >= 0
  {
    var u := hi * 0x100 + lo;
    if u > Int16Max then u - 0x1_0000 else u
  }

  /** Reading back what add_be_int16 wrote yields the value truncated to 16 bits. */
  lemma ReadBeInt16Bytes(v: int)
    ensures ReadBeInt16(BeInt16Bytes(v)[0], BeInt16Bytes(v)[1]) == Wrap16(v)
  {
    var u := v % 0x1_0000;
    assert (u / 0x100) * 0x100 + u % 0x100 == u;
  }

  /** Writing back what get_be_int16 read yields the same two bytes. */
  lemma BeInt16BytesRead(hi: Byte, lo: Byte)
    ensures BeInt16Bytes(ReadBeInt16(hi, lo)) == [hi, lo]
  {
    var u := hi * 0x100 + lo;
    assert ReadBeInt16(hi, lo) % 0x1_0000 == u;
    assert u / 0x100 == hi && u % 0x100 == lo;
  }

  /** The bytes build_record appends: two bytes of padding, then the index. */
  function Payload(index: int): (r: seq<Byte>)
    ensures |r| == 4 && r[0] == 0 && r[1] == 0
    ensures r[2..] == BeInt16Bytes(index)
  {
    [0, 0] + BeInt16Bytes(index)
  }

  /** The index extract_record reads from the bytes after its position: skip two, read a big-endian int16. */
  function ParsePayload(d: seq<Byte>): (r: Option<int>)
    ensures r.Some? <==> |d| >= 4
    ensures r.Some? ==> Int16Min <= r.value <= Int16Max
  {
    if |d| >= 4 then Some(ReadBeInt16(d[2], d[3])) else None
  }

  /**
   * build_record then extract_record: the index comes back as its 16-bit
   * truncation, and unchanged when it is in int16 range, whatever follows it.
   */
  lemma PayloadRoundTrip(index: int, rest: seq<Byte>)
    ensures ParsePayload(Payload(index) + rest) == Some(Wrap16(index))
    ensures Int16Min <= index <= Int16Max ==> ParsePayload(Payload(index) + rest) == Some(index)
  {
    var d := Payload(index) + rest;
    assert d[2] == BeInt16Bytes(index)[0] && d[3] == BeInt16Bytes(index)[1];
    ReadBeInt16Bytes(index);
  }

  /** extract_record then build_record: a well-formed payload with zero padding is rebuilt byte for byte. */
  lemma ParsePayloadRoundTrip(d: seq<Byte>)
    requires |d| == 4 && d[0] == 0 && d[1] == 0
    ensures ParsePayload(d).Some? && Payload(ParsePayload(d).value) == d
  {
    BeInt16BytesRead(d[2], d[3]);
  }

  /** The writer side of one record: its opcode, its datagram, and what it has been asked to write. */
  class FltRecordWriter {
    var opcode: Opcode
    var datagram: seq<Byte>
    var log: seq<WriteEvent>

    constructor(opcode: Opcode, datagram: seq<Byte>)
      ensures this.opcode == opcode && this.datagram == datagram && log == []
    {
      this.opcode := opcode;
      this.datagram := datagram;
      log := [];
    }
  }

  /** The reader side of one record: its opcode, already read, and an iterator over its datagram. */
  class FltRecordReader {
    const opcode: Opcode
    const datagram: seq<Byte>
    var pos: nat

    constructor(opcode: Opcode, datagram: seq<Byte>)
      ensures this.opcode == opcode && this.datagram == datagram && pos == 0
    {
      this.opcode := opcode;
      this.datagram := datagram;
      pos := 0;
    }
  }

  /**
   * FltInstanceRef: a bead that stands for a copy of the instance definition
   * with the given index.  The base bead's own extraction and building are
   * parameters (baseOk), since FltBead is not part of this model.
   */
  class FltInstanceRef {
    var instanceIndex: int

    /** A new reference points at instance 0 (fltInstanceRef.cxx:33-35). */
    constructor()
      ensures instanceIndex == 0
    {
      instanceIndex := 0;
    }

    /**
     * extract_record: fails, leaving the index and the iterator alone, when the
     * base bead fails, when the record is not an instance reference, or when
     * fewer than four bytes remain; otherwise skips two bytes and reads the
     * index as a big-endian int16.
     */
    method ExtractRecord(reader: FltRecordReader, baseOk: bool) returns (ok: bool)
      requires reader.pos <= |reader.datagram|
      modifies this, reader
      ensures reader.pos <= |reader.datagram|
      ensures ok <==> baseOk && reader.opcode == InstanceRefOpcode && old(reader.pos) + 4 <= |reader.datagram|
      ensures ok ==> Some(instanceIndex) == ParsePayload(reader.datagram[old(reader.pos)..]) &&
                     reader.pos == old(reader.pos) + 4
      ensures !ok ==> instanceIndex == old(instanceIndex) && reader.pos == old(reader.pos)
    {
      if !baseOk {
        return false;
      }
      if reader.opcode != InstanceRefOpcode {
        return false;
      }
      if reader.pos + 4 > |reader.datagram| {
        return false;
      }
      reader.pos := reader.pos + 2;
      instanceIndex := ReadBeInt16(reader.datagram[reader.pos], reader.datagram[reader.pos + 1]);
      reader.pos := reader.pos + 2;
      return true;
    }

    /**
     * build_record: fails, leaving the writer alone, when the base bead fails;
     * otherwise sets the instance-reference opcode and appends the payload.
     */
    method BuildRecord(writer: FltRecordWriter, baseOk: bool) returns (ok: bool)
      modifies writer`opcode, writer`datagram
      ensures ok == baseOk
      ensures !ok ==> writer.opcode == old(writer.opcode) && writer.datagram == old(writer.datagram)
      ensures ok ==> writer.opcode == InstanceRefOpcode && writer.datagram == old(writer.datagram) + Payload(instanceIndex)
    {
      if !baseOk {
        return false;
      }
      writer.opcode := InstanceRefOpcode;
      writer.datagram := writer.datagram + [0, 0];
      writer.datagram := writer.datagram + BeInt16Bytes(instanceIndex);
      return true;
    }

    /**
     * write_record_and_children: the instance definition is written first;
     * when that fails its error is the result and the bead's own record is
     * not written, otherwise the result is that of writing the record.
     */
    method WriteRecordAndChildren(writer: FltRecordWriter, defResult: FltError, recordResult: FltError)
      returns (r: FltError)
      modifies writer`log
      ensures defResult != FeOk ==> r == defResult && writer.log == old(writer.log) + [InstanceDefinition(instanceIndex)]
      ensures defResult == FeOk ==>
                r == recordResult && writer.log == old(writer.log) + [InstanceDefinition(instanceIndex), RecordAndChildren]
    {
      writer.log := writer.log + [InstanceDefinition(instanceIndex)];
      if defResult != FeOk {
        return defResult;
      }
      writer.log := writer.log + [RecordAndChildren];
      return recordResult;
    }
  }

  /**
   * A reference built into a fresh record and read back by a fresh bead holds
   * the original index truncated to 16 bits.
   */
  method RoundTrip(index: int) returns (back: int)
    ensures back == Wrap16(index)
    ensures Int16Min <= index <= Int16Max ==> back == index
  {
    var source := new FltInstanceRef();
    source.instanceIndex := index;
    var writer := new FltRecordWriter(OtherOpcode(0), []);
    var built := source.BuildRecord(writer, true);
    var reader := new FltRecordReader(writer.opcode, writer.datagram);
    var target := new FltInstanceRef();
    var read := target.ExtractRecord(reader, true);
    PayloadRoundTrip(index, []);
    assert Payload(index) + [] == reader.datagram[0..];
    back := target.instanceIndex;
  }
}
