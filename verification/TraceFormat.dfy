/**
 The memory format of user blocks and the host's way of cutting a byte stream into them.
 */
module TraceFormat {
  import opened Basics
  import opened TraceProtocol

  /** What an application hands over: the core it runs on and its data. */
  datatype User = User(core: nat, data: seq<byte>)

  predicate UserOk(u: User) {
    u.core < 2 && 0 < |u.data| <= BLOCK_SIZE - HEADER
  }

  /** `block_sz` and `wr_sz` after the buffer has been put: the core in bit 15, the length below. */
  function SizeField(u: User): nat
    requires UserOk(u)
  {
    u.core * 0x8000 + |u.data|
  }

  function Word(lo: byte, hi: byte): nat {
    (lo as nat) + 256 * (hi as nat)
  }

  function Header(f: nat): seq<byte>
    requires f < 0x1_0000
  {
    [f % 256, f / 256, f % 256, f / 256]
  }

  function Encode(u: User): (b: Block)
    requires UserOk(u)
    ensures |b| == HEADER + |u.data|
  {
    Header(SizeField(u)) + u.data
  }

  function EncodeAll(us: seq<User>): seq<Block>
    requires forall u :: u in us ==> UserOk(u)
  {
    if us == [] then [] else [Encode(us[0])] + EncodeAll(us[1..])
  }

  /** The first user block of a stream, or None when it is incomplete. */
  function HostFirst(s: seq<byte>): (r: Option<User>)
    ensures r.Some? ==> HEADER + |r.value.data| <= |s|
  {
    if |s| < HEADER then None
    else
      var blockSz, wrSz := Word(s[0], s[1]), Word(s[2], s[3]);
      var len := blockSz % 0x8000;
      if wrSz != blockSz || |s| < HEADER + len then None
      else Some(User(blockSz / 0x8000, s[HEADER..HEADER + len]))
  }

  /** The host's view: cut the bytes it read into user blocks; None for an incomplete block. */
  function HostParse(s: seq<byte>): Option<seq<User>> {
    if s == [] then Some([])
    else
      match HostFirst(s)
      case None => None
      case Some(u) =>
        match HostParse(s[HEADER + |u.data|..])
        case None => None
        case Some(rest) => Some([u] + rest)
  }

  /** A user block byte by byte: twice the length, low byte first and the core in the top bit, and then the data. */
  lemma EncodedBytes(u: User)
    requires UserOk(u)
    ensures var n, b := |u.data|, Encode(u);
            && b[0] == b[2] == n % 256
            && b[1] == b[3] == n / 256 + (if u.core == 1 then 128 else 0)
            && b[4..] == u.data
  {
  }

  lemma SizeFieldParts(u: User)
    requires UserOk(u)
    ensures SizeField(u) < 0x1_0000
    ensures SizeField(u) % 0x8000 == |u.data| && SizeField(u) / 0x8000 == u.core
    ensures Word(SizeField(u) % 256, SizeField(u) / 256) == SizeField(u)
  {
  }

  lemma FirstOfEncoded(u: User, rest: seq<byte>)
    requires UserOk(u)
    ensures HostFirst(Encode(u) + rest) == Some(u)
    ensures (Encode(u) + rest)[HEADER + |u.data|..] == rest
  {
    SizeFieldParts(u);
    var h := Header(SizeField(u));
    var s := Encode(u) + rest;
    assert s == h + (u.data + rest);
    assert s[HEADER..HEADER + |u.data|] == u.data;
  }

  lemma ParseOneMore(u: User, rest: seq<byte>, us: seq<User>)
    requires UserOk(u) && HostParse(rest) == Some(us)
    ensures HostParse(Encode(u) + rest) == Some([u] + us)
  {
    FirstOfEncoded(u, rest);
    hide HostFirst, Encode, SizeField, Word;
    var s := Encode(u) + rest;
    assert s != [] by { assert |Encode(u)| >= HEADER; }
  }

  /** Cutting the bytes of whole user blocks gives the user blocks back. */
  lemma {:induction false} HostParsesWholeBlocks(us: seq<User>)
    requires forall u :: u in us ==> UserOk(u)
    ensures HostParse(Bytes(EncodeAll(us))) == Some(us)
  {
    if us != [] {
      HostParsesWholeBlocks(us[1..]);
      assert EncodeAll(us)[1..] == EncodeAll(us[1..]);
      ParseOneMore(us[0], Bytes(EncodeAll(us[1..])), us[1..]);
      assert us == [us[0]] + us[1..];
    }
  }
}
