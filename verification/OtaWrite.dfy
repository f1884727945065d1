/**
 Writing an application image in pieces: `esp_ota_write` and `esp_ota_end`.  With flash encryption
 only multiples of 16 bytes can be written, so a tail of up to 15 bytes is kept in a buffer.
 */
module OtaWrite {
  import opened Basics

  const MAGIC: byte := 0xE9            // ESP_IMAGE_HEADER_MAGIC
  const UNIT: nat := 16

  datatype Result = Ok | InvalidArg | ValidateFailed | InvalidState | FlashError

  /** A write only adds to the buffer. */
  predicate Fills(encrypted: bool, partialBytes: nat, n: nat) {
    encrypted && partialBytes != 0 && partialBytes + n < UNIT
  }

  /** A write completes the buffer first: how many of its bytes go there. */
  function CompletedBy(encrypted: bool, partialBytes: nat): (n: nat)
    requires partialBytes <= UNIT
    ensures n < UNIT
  {
    if encrypted && partialBytes != 0 then UNIT - partialBytes else 0
  }

  /** The bytes behind the last full unit. */
  function Tail(encrypted: bool, s: seq<byte>): seq<byte> {
    s[|s| - (if encrypted then |s| % UNIT else 0)..]
  }

  /** What of `s` stays in the entry when a write of it fails in its first or its second flash write. */
  function Leftover(encrypted: bool, partialBytes: nat, s: seq<byte>, first: bool): seq<byte>
    requires partialBytes <= UNIT && CompletedBy(encrypted, partialBytes) <= |s|
  {
    var c := CompletedBy(encrypted, partialBytes);
    if first then s[..c] else s[..c] + Tail(encrypted, s[c..])
  }

  /** Nothing stays exactly without encryption, or when the buffer was empty or full and there is no tail to
      keep. */
  lemma LeftoverEmptyIff(encrypted: bool, partialBytes: nat, s: seq<byte>, first: bool)
    requires partialBytes <= UNIT && CompletedBy(encrypted, partialBytes) <= |s|
    ensures Leftover(encrypted, partialBytes, s, first) == []
            <==> !encrypted || (partialBytes % UNIT == 0 && (first || |s| % UNIT == 0))
  {
  }

  lemma Joined(a: seq<byte>, s: seq<byte>, c: nat)
    requires c <= |s|
    ensures a + s[..c] + s[c..] == a + s
  {
    assert s[..c] + s[c..] == s;
  }

  lemma JoinedBehind(a: seq<byte>, s: seq<byte>, c: nat)
    requires c <= |s|
    ensures a + s[..c] + s[c..] == a + s
    ensures a + s[..c] + Tail(true, s[c..]) == a + (s[..c] + Tail(true, s[c..]))
  {
    Joined(a, s, c);
    Assoc(a, s[..c], Tail(true, s[c..]));
  }

  /** One entry of the list of OTA operations, together with its partition. */
  class OtaOp {
    const flash: array<byte>           // the partition
    const partialData: array<byte>
    const encrypted: bool
    var wroteSize: nat
    var partialBytes: nat
    ghost var data: seq<byte>          // everything accepted by successful writes

    ghost predicate Valid()
      reads this, flash, partialData
    {
      && partialData.Length == UNIT && flash != partialData
      && wroteSize <= flash.Length && partialBytes <= UNIT     // a full buffer only after a failed write
      && (encrypted ==> wroteSize % UNIT == 0)
      && (!encrypted ==> partialBytes == 0)
      && flash[..wroteSize] + partialData[..partialBytes] == data
    }

    // esp_ota_begin, after the partition has been erased
    constructor (part: array<byte>, encrypted: bool)
      ensures Valid() && data == [] && flash == part && this.encrypted == encrypted && fresh(partialData)
    {
      flash := part;
      this.encrypted := encrypted;
      partialData := new byte[UNIT](_ => 0);
      wroteSize, partialBytes := 0, 0;
      data := [];
    }

    // esp_partition_write: `works` says whether the flash driver succeeds.
    method PartitionWrite(at: nat, s: seq<byte>, works: bool) returns (ok: bool)
      modifies flash
      ensures ok <==> works && at + |s| <= flash.Length
      ensures flash[..] == if ok then old(flash[..at]) + s + old(flash[at + |s|..]) else old(flash[..])
    {
      ok := works && at + |s| <= flash.Length;
      if ok {
        forall k | 0 <= k < |s| {
          flash[at + k] := s[k];
        }
        assert flash[..at] == old(flash[..at]) && flash[at + |s|..] == old(flash[at + |s|..]);
        assert flash[at..at + |s|] == s;
        assert flash[..] == flash[..at] + flash[at..at + |s|] + flash[at + |s|..];
      }
    }

    // As much as fits is added to the buffer.
    method FillBuffer(s: seq<byte>) returns (copyLen: nat)
      requires Valid() && encrypted
      modifies `partialBytes, `data, partialData
      ensures Valid()
      ensures copyLen == if UNIT - old(partialBytes) <= |s| then UNIT - old(partialBytes) else |s|
      ensures data == old(data) + s[..copyLen] && partialBytes == old(partialBytes) + copyLen
    {
      copyLen := if UNIT - partialBytes <= |s| then UNIT - partialBytes else |s|;
      ghost var head, kept := flash[..wroteSize], partialData[..partialBytes];
      forall k | 0 <= k < copyLen {
        partialData[partialBytes + k] := s[k];
      }
      assert partialData[..partialBytes] == kept;
      assert partialData[..partialBytes + copyLen] == kept + s[..copyLen];
      Assoc(head, kept, s[..copyLen]);
      partialBytes := partialBytes + copyLen;
      data := data + s[..copyLen];
    }

    // A full buffer is written.
    method WriteBuffer(works: bool) returns (ok: bool)
      requires Valid() && encrypted && partialBytes == UNIT
      modifies `partialBytes, `wroteSize, partialData, flash
      ensures Valid() && (ok <==> works && old(wroteSize) + UNIT <= flash.Length)
      ensures if ok then partialBytes == 0 && wroteSize == old(wroteSize) + UNIT
              else partialBytes == UNIT && wroteSize == old(wroteSize)
    {
      ghost var head := flash[..wroteSize];
      assert partialData[..UNIT] == partialData[..];
      ok := PartitionWrite(wroteSize, partialData[..], works);
      if ok {
        assert flash[..wroteSize + UNIT] == head + partialData[..];
        partialBytes := 0;
        wroteSize := wroteSize + UNIT;
        forall k | 0 <= k < UNIT {
          partialData[k] := 0xFF;
        }
        assert data == flash[..wroteSize] + partialData[..0];
      } else {
        assert flash[..wroteSize] == head;
      }
    }

    // The part of esp_ota_write that adds to a buffer with something in it.  `full` says whether the
    // buffer has been filled up; then it has been written, or that write has failed.
    method TopUp(s: seq<byte>, works: bool) returns (full: bool, ok: bool, copyLen: nat)
      requires Valid() && encrypted && partialBytes != 0
      modifies this, flash, partialData
      ensures Valid()
      ensures copyLen == if UNIT - old(partialBytes) <= |s| then UNIT - old(partialBytes) else |s|
      ensures data == old(data) + s[..copyLen]
      ensures full <==> old(partialBytes) + |s| >= UNIT
      ensures full && ok ==> partialBytes == 0 && wroteSize == old(wroteSize) + UNIT
      ensures !full || !ok ==> wroteSize == old(wroteSize) && partialBytes == old(partialBytes) + copyLen
      ensures full ==> (ok <==> works && old(wroteSize) + UNIT <= flash.Length)
    {
      assert partialBytes <= UNIT;
      hide Valid;
      copyLen := FillBuffer(s);
      full, ok := partialBytes == UNIT, true;
      if full {
        ok := WriteBuffer(works);
      }
    }

    // The bytes behind the last full unit go to the buffer.
    method KeepTail(s: seq<byte>) returns (size: nat)
      requires partialData.Length == UNIT && partialBytes == 0
      modifies this`partialBytes, partialData
      ensures partialBytes == (if encrypted then |s| % UNIT else 0) && size == |s| - partialBytes
      ensures partialData[..partialBytes] == s[size..]
    {
      size := |s|;
      if encrypted {
        partialBytes := size % UNIT;
        if partialBytes != 0 {
          size := size - partialBytes;
          forall k | 0 <= k < partialBytes {
            partialData[k] := s[size + k];
          }
        }
        assert partialData[..partialBytes] == s[size..];
      }
    }

    // The rest: keep the tail below 16 bytes and write what is before it.
    method WriteRest(s: seq<byte>, works: bool) returns (ok: bool)
      requires Valid() && partialBytes == 0
      modifies this, flash, partialData
      ensures Valid() && data == old(data) + if ok then s else Tail(encrypted, s)
      ensures partialBytes == (if encrypted then |s| % UNIT else 0)
      ensures wroteSize == old(wroteSize) + if ok then |s| - partialBytes else 0
      ensures ok <==> works && old(wroteSize) + |s| - (if encrypted then |s| % UNIT else 0) <= flash.Length
    {
      ghost var head := flash[..wroteSize];
      assert data == head;
      var size := KeepTail(s);
      assert flash[..wroteSize] == head;
      ok := PartitionWrite(wroteSize, s[..size], works);
      if ok {
        assert flash[..wroteSize + size] == head + s[..size];
        wroteSize := wroteSize + size;
        assert s[..size] + s[size..] == s;
        assert head + s[..size] + s[size..] == head + s;
        data := data + s;
      } else {
        assert flash[..wroteSize] == head;
        data := data + s[size..];
      }
    }

    /** The first of the flash writes of a write of `n` bytes is made and fails. */
    predicate FirstFails(n: nat, works: bool)
      reads `wroteSize, `partialBytes
    {
      encrypted && partialBytes != 0 && partialBytes + n >= UNIT && !(works && wroteSize + UNIT <= flash.Length)
    }

    /** The last one is reached and fails. */
    predicate LastFails(n: nat, works1: bool, works2: bool)
      requires partialBytes <= UNIT
      reads `wroteSize, `partialBytes
    {
      && !Fills(encrypted, partialBytes, n) && !FirstFails(n, works1)
      && var c := CompletedBy(encrypted, partialBytes);
         var rest := n - c;
         var at := wroteSize + if c > 0 || (encrypted && partialBytes == UNIT) then UNIT else 0;
         !(works2 && at + rest - (if encrypted then rest % UNIT else 0) <= flash.Length)
    }

    // esp_ota_write behind the check of the magic byte
    method WriteBytes(s: seq<byte>, works1: bool, works2: bool) returns (ok: bool)
      requires Valid()
      modifies this, flash, partialData
      ensures Valid()
      ensures ok <==> !old(FirstFails(|s|, works1)) && !old(LastFails(|s|, works1, works2))
      ensures ok ==> partialBytes < UNIT && data == old(data) + s
      ensures !ok ==>
                && CompletedBy(encrypted, old(partialBytes)) <= |s|
                && data == old(data) + Leftover(encrypted, old(partialBytes), s, old(FirstFails(|s|, works1)))
    {
      assert partialBytes <= UNIT && (!encrypted ==> partialBytes == 0) && partialData.Length == UNIT;
      hide Valid, Tail;
      if encrypted && partialBytes != 0 {
        var full, copyLen;
        full, ok, copyLen := TopUp(s, works1);
        if !full {
          assert s[..copyLen] == s;
          return true;
        }
        if ok {
          var rest := s[copyLen..];
          JoinedBehind(old(data), s, copyLen);
          ok := WriteRest(rest, works2);
        }
      } else {
        ok := WriteRest(s, works2);
        assert s[..0] + Tail(encrypted, s[0..]) == Tail(encrypted, s);
      }
    }

    // esp_ota_write; `works1` and `works2` are the outcomes of its at most two flash writes.
    method Write(s: seq<byte>, works1: bool, works2: bool) returns (r: Result)
      requires Valid()
      modifies this, flash, partialData
      ensures Valid()
      ensures r == Ok ==> partialBytes < UNIT && data == old(data) + s
      ensures r == ValidateFailed <==> old(wroteSize) == 0 && old(partialBytes) == 0 && |s| > 0 && s[0] != MAGIC
      ensures r == ValidateFailed ==> data == old(data)
      ensures r in {Ok, ValidateFailed, FlashError}
      ensures r == FlashError <==>
                r != ValidateFailed && (old(FirstFails(|s|, works1)) || old(LastFails(|s|, works1, works2)))
      ensures r == FlashError ==>
                && CompletedBy(encrypted, old(partialBytes)) <= |s|
                && data == old(data) + Leftover(encrypted, old(partialBytes), s, old(FirstFails(|s|, works1)))
    {
      if wroteSize == 0 && partialBytes == 0 && |s| > 0 && s[0] != MAGIC {
        return ValidateFailed;
      }
      var ok := WriteBytes(s, works1, works2);
      r := if ok then Ok else FlashError;
    }

    /** A working flash driver and enough room are enough. */
    lemma NoFailure(n: nat)
      requires Valid() && |data| + n <= flash.Length
      ensures !FirstFails(n, true) && !LastFails(n, true, true)
    {
    }

    // esp_ota_end up to the verification of the image
    method End(works: bool) returns (r: Result)
      requires Valid()
      modifies this, flash
      ensures r == InvalidArg <==> old(wroteSize) == 0
      ensures r == Ok ==> |data| <= flash.Length && flash[..|data|] == data && data == old(data)
      ensures r == InvalidState <==> old(wroteSize) > 0 && old(partialBytes) > 0
                                     && !(works && old(wroteSize) + UNIT <= flash.Length)
      ensures r in {Ok, InvalidArg, InvalidState}
    {
      if wroteSize == 0 {
        return InvalidArg;
      }
      ghost var head := flash[..wroteSize];
      if partialBytes > 0 {
        var ok := PartitionWrite(wroteSize, partialData[..], works);
        if !ok {
          return InvalidState;
        }
        assert flash[..wroteSize + partialBytes] == head + partialData[..partialBytes];
        wroteSize := wroteSize + UNIT;
        partialBytes := 0;
      } else {
        assert head + partialData[..0] == head;
      }
      r := Ok;
    }
  }

  /** A write that failed in a flash write is repeated: when the second call succeeds, the entry holds the data
      once if and only if the failed one left nothing behind. */
  method RepeatAfterFailure(op: OtaOp, s: seq<byte>, works1: bool, works2: bool) returns (again: Result)
    requires op.Valid() && !(op.wroteSize == 0 && op.partialBytes == 0 && |s| > 0 && s[0] != MAGIC)
    requires op.FirstFails(|s|, works1) || op.LastFails(|s|, works1, works2)
    modifies op, op.flash, op.partialData
    ensures op.Valid()
    ensures again == Ok ==>
              (op.data == old(op.data) + s
               <==> !op.encrypted || (old(op.partialBytes) % UNIT == 0 && (old(op.FirstFails(|s|, works1)) || |s| % UNIT == 0)))
  {
    ghost var before := op.data;
    ghost var p, first := op.partialBytes, op.FirstFails(|s|, works1);
    var r := op.Write(s, works1, works2);
    assert r == FlashError;
    LeftoverEmptyIff(op.encrypted, p, s, first);
    ghost var left := Leftover(op.encrypted, p, s, first);
    again := op.Write(s, true, true);
    if again == Ok {
      assert op.data == before + left + s;
      assert left == [] ==> before + left == before;
      assert |op.data| == |before| + |left| + |s|;
    }
  }

  function Concat(pieces: seq<seq<byte>>): seq<byte> {
    if pieces == [] then [] else Concat(pieces[..|pieces| - 1]) + pieces[|pieces| - 1]
  }

  lemma {:induction false} ConcatGrows(pieces: seq<seq<byte>>, k: nat)
    requires k <= |pieces|
    ensures Concat(pieces[..k]) <= Concat(pieces)
    decreases |pieces|
  {
    if k < |pieces| {
      var most := pieces[..|pieces| - 1];
      ConcatGrows(most, k);
      assert most[..k] == pieces[..k];
      assert Concat(most) <= Concat(most) + pieces[|pieces| - 1];
    } else {
      assert pieces[..k] == pieces;
    }
  }

  lemma ConcatStep(pieces: seq<seq<byte>>, k: nat)
    requires k < |pieces|
    ensures Concat(pieces[..k + 1]) == Concat(pieces[..k]) + pieces[k]
    ensures |Concat(pieces[..k])| + |pieces[k]| <= |Concat(pieces)|
    ensures Concat(pieces[..k + 1]) != [] ==> Concat(pieces)[0] == Concat(pieces[..k + 1])[0]
  {
    assert pieces[..k + 1][..k] == pieces[..k];
    ConcatGrows(pieces, k + 1);
  }

  /** How an image of the given pieces fares, with a working flash driver. */
  predicate Acceptable(image: seq<byte>, partSize: nat, encrypted: bool) {
    && |image| >= (if encrypted then 16 else 1) && |image| <= partSize
    && image[0] == 0xE9
  }

  /** For every way of cutting an image into writes, with or without encryption: it is accepted exactly
      when it starts with the magic byte, fits, and is not shorter than one unit (one byte without
      encryption); and then the partition begins with exactly the image. */
  method WriteImage(partSize: nat, encrypted: bool, pieces: seq<seq<byte>>) returns (r: Result, content: seq<byte>)
    requires partSize % UNIT == 0
    ensures r == Ok <==> Acceptable(Concat(pieces), partSize, encrypted)
    ensures r == Ok ==> |content| == partSize && Concat(pieces) <= content
  {
    var part := new byte[partSize](_ => 0xFF);
    var op := new OtaOp(part, encrypted);
    content := [];
    for k := 0 to |pieces|
      invariant op.Valid() && fresh(op) && fresh(op.partialData) && op.partialBytes < UNIT
      invariant op.flash == part && op.encrypted == encrypted
      invariant op.data == Concat(pieces[..k])
      invariant op.data != [] ==> op.data[0] == MAGIC
    {
      ConcatStep(pieces, k);
      if |op.data| + |pieces[k]| <= partSize {
        op.NoFailure(|pieces[k]|);
      }
      r := op.Write(pieces[k], true, true);
      if r != Ok {
        return;
      }
    }
    assert pieces[..|pieces|] == pieces;
    r := op.End(true);
    content := part[..];
  }
}
