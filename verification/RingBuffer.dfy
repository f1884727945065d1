/**
 The non-splitting ring buffer of the tracing module: `esp_apptrace_rb_produce`,
 `esp_apptrace_rb_consume` and the two size queries.

 A producer gets one contiguous region or nothing.  When the space before the end is too
 small, the buffer is shrunk to the write position and the region starts at 0; the full size
 comes back when the reader wraps.
 */
module RingBuffer {
  import opened Basics

  /** The index fields of `esp_apptrace_rb_t`. */
  datatype Index = Index(size: nat, curSize: nat, rd: nat, wr: nat) {

    predicate Ok() {
      && (size == 0 ==> rd == wr == 0)
      && (size > 0 ==> wr < size && rd < size)
      && (rd <= wr ==> curSize == size)          // the full size is back whenever data does not wrap
      && (rd > wr ==> rd < curSize <= size)
    }

    /** Cell `k` holds data that was produced and not yet consumed. */
    predicate Unread(k: int) {
      if rd <= wr then rd <= k < wr else rd <= k < curSize || 0 <= k < wr
    }

    /** `n` cells from `start` may be handed out: they are inside the buffer and overwrite nothing
        unread, an early wrap does not pass the reader, and the writer does not catch the reader. */
    ghost predicate Room(start: nat, n: nat) {
      && start < size && start + n <= size
      && (forall k :: start <= k < start + n ==> !Unread(k))
      && (start != wr ==> !(start <= rd < start + n))
      && (n > 0 ==> (if start + n == size then 0 else start + n) != rd)
    }

    /** Where a request for `n` cells is placed. */
    function Place(n: nat): Option<nat> {
      if rd <= wr then
        if wr + n < size || (0 < rd && wr + n == size) then Some(wr)
        else if 0 < rd && n < rd then Some(0)
        else None
      else if n < rd - wr then Some(wr) else None
    }
  }

  /** A request is placed where there is room, and refused only when there is none. */
  lemma PlaceFindsRoom(i: Index, n: nat)
    requires i.Ok()
    ensures match i.Place(n)
            case Some(start) => i.Room(start, n)
            case None => !i.Room(i.wr, n) && !i.Room(0, n)
  {
    if i.rd > i.wr && n >= i.rd - i.wr {
      assert i.Unread(i.rd);
      assert i.wr > 0 ==> i.Unread(0);
      assert i.wr <= i.rd < i.wr + n || n == i.rd - i.wr;
    }
  }

  /** A single cell is refused exactly when all but one are taken, as long as the size was never shrunk. */
  lemma OneCell(i: Index)
    requires i.Ok() && i.curSize == i.size
    ensures i.Place(1).None? <==> Count(i) + 1 >= i.size
  {
  }

  lemma NeverFull(i: Index)
    requires i.Ok()
    ensures Count(i) < i.size || Count(i) == 0
  {
  }

  /** An empty buffer does not accept every request below its capacity: it accepts `n` cells
      wherever its indices stand exactly when `n` is at most half the size. */
  lemma EmptyAcceptsHalf(size: nat, n: nat)
    requires 0 < n
    ensures (forall i: Index :: i.Ok() && i.size == size && i.rd == i.wr ==> i.Place(n).Some?)
            <==> 2 * n <= size
  {
    if 2 * n > size {
      var p := if n < size then size - n + 1 else 0;
      var i := Index(size, size, p, p);
      assert i.Ok() && i.size == size && i.rd == i.wr && i.Place(n).None?;
    }
  }

  /** The ring of chunk sizes counts bytes and always moves by two; counting it in 16-bit cells
      accepts exactly the same requests at the corresponding places. */
  lemma PlaceInCells(i: Index, n: nat)
    requires i.Ok()
    ensures var b := Index(2 * i.size, 2 * i.curSize, 2 * i.rd, 2 * i.wr);
            && b.Ok()
            && b.Place(2 * n) == match i.Place(n) case Some(start) => Some(2 * start) case None => None
  {
  }

  /** Unread elements that can be taken in one piece. */
  function Contiguous(i: Index): nat
    requires i.Ok()
  {
    if i.rd <= i.wr then i.wr - i.rd else i.curSize - i.rd
  }

  function Count(i: Index): nat
    requires i.Ok()
  {
    Contiguous(i) + if i.rd <= i.wr then 0 else i.wr
  }

  /** The cell of the `j`-th oldest unread element. */
  function Cell(i: Index, j: nat): (k: nat)
    requires i.Ok() && j < Count(i)
    ensures k < i.size && i.Unread(k)
  {
    if j < Contiguous(i) then i.rd + j else j - Contiguous(i)
  }

  /** The unread elements in memory `mem`, oldest first. */
  function UnreadOf<T>(i: Index, mem: seq<T>): (s: seq<T>)
    requires i.Ok() && |mem| == i.size
    ensures |s| == Count(i)
    ensures forall j :: 0 <= j < |s| ==> s[j] == mem[Cell(i, j)]
  {
    seq(Count(i), j requires 0 <= j < Count(i) => mem[Cell(i, j)])
  }

  /** Overwriting the last produced region replaces exactly the newest unread elements. */
  lemma FillRegion<T>(i: Index, before: seq<T>, after: seq<T>, start: nat, s: seq<T>)
    requires i.Ok() && |before| == |after| == i.size && start + |s| <= i.size
    requires start + |s| == i.wr || (i.wr == 0 && start + |s| == i.curSize)
    requires |s| <= Count(i)
    requires forall k :: 0 <= k < i.size ==> after[k] == if start <= k < start + |s| then s[k - start] else before[k]
    ensures UnreadOf(i, after) == UnreadOf(i, before)[..Count(i) - |s|] + s
  {
    var b, a := UnreadOf(i, before), UnreadOf(i, after);
    forall j | 0 <= j < Count(i)
      ensures a[j] == (b[..Count(i) - |s|] + s)[j]
    {
      assert a[j] == after[Cell(i, j)] && b[j] == before[Cell(i, j)];
    }
  }

  lemma Filled<T>(i: Index, before: seq<T>, after: seq<T>, start: nat, s: seq<T>, was: seq<T>)
    requires i.Ok() && |before| == |after| == i.size && start + |s| <= i.size
    requires start + |s| == i.wr || (i.wr == 0 && start + |s| == i.curSize)
    requires UnreadOf(i, before) == was + before[start..start + |s|]
    requires forall k :: 0 <= k < i.size ==> after[k] == if start <= k < start + |s| then s[k - start] else before[k]
    ensures UnreadOf(i, after) == was + s && after[start..start + |s|] == s
  {
    FillRegion(i, before, after, start, s);
    assert UnreadOf(i, before)[..|was|] == was;
  }

  /** The indices after taking `n` elements: the reader wraps at the current end, which restores the size. */
  function Advance(i: Index, n: nat): (i': Index)
    requires i.Ok() && n <= Contiguous(i)
    ensures i'.Ok() && Count(i') == Count(i) - n
    ensures forall j :: 0 <= j < Count(i') ==> Cell(i', j) == Cell(i, j + n)
  {
    if i.rd > i.wr && i.rd + n == i.curSize then i.(rd := 0, curSize := i.size) else i.(rd := i.rd + n)
  }

  lemma TakeOldest<T>(i: Index, mem: seq<T>, n: nat)
    requires i.Ok() && |mem| == i.size && n <= Contiguous(i)
    ensures i.rd + n <= i.size && n <= |UnreadOf(i, mem)|
    ensures mem[i.rd..i.rd + n] == UnreadOf(i, mem)[..n]
    ensures UnreadOf(Advance(i, n), mem) == UnreadOf(i, mem)[n..]
  {
  }

  /** The indices after `n` more cells have been handed out. */
  function Extend(i: Index, n: nat): (i': Index)
    requires i.Ok() && i.Place(n).Some?
    ensures i'.Ok() && Count(i') == Count(i) + n
    ensures forall j :: 0 <= j < Count(i) ==> Cell(i', j) == Cell(i, j)
    ensures forall j :: Count(i) <= j < Count(i') ==> Cell(i', j) == i.Place(n).value + (j - Count(i))
  {
    if i.Place(n) == Some(i.wr) then
      i.(wr := if i.wr + n == i.size then 0 else i.wr + n)
    else if i.rd == i.wr then
      i.(rd := 0, wr := n)
    else
      i.(curSize := i.wr, wr := n)
  }

  lemma AddNewest<T>(i: Index, mem: seq<T>, n: nat)
    requires i.Ok() && |mem| == i.size && i.Place(n).Some?
    ensures i.Place(n).value + n <= i.size
    ensures UnreadOf(Extend(i, n), mem) == UnreadOf(i, mem) + mem[i.Place(n).value..i.Place(n).value + n]
  {
  }

  class Ring<T> {
    const data: array<T>
    var curSize: nat
    var rd: nat
    var wr: nat

    ghost function Idx(): Index
      reads this
    {
      Index(data.Length, curSize, rd, wr)
    }

    ghost predicate Valid()
      reads this
    {
      Idx().Ok()
    }

    /** The unread elements, oldest first. */
    ghost function Contents(): seq<T>
      requires Valid()
      reads this, data
    {
      UnreadOf(Idx(), data[..])
    }

    constructor (buf: array<T>)
      ensures Valid() && data == buf && Contents() == []
      ensures curSize == buf.Length && rd == wr == 0
    {
      data := buf;
      curSize := buf.Length;
      rd, wr := 0, 0;
    }

    /** Hands out `n` contiguous cells behind the unread data, or nothing. */
    method Produce(n: nat) returns (p: Option<nat>)
      requires Valid()
      modifies this
      ensures Valid()
      ensures p == old(Idx().Place(n))
      ensures p.None? ==> Idx() == old(Idx())
      ensures p.Some? ==> p.value + n <= data.Length && Contents() == old(Contents()) + data[p.value..p.value + n]
      ensures p.Some? ==> Idx() == Extend(old(Idx()), n)
      ensures p.Some? ==> p.value + n == wr || (wr == 0 && p.value + n == curSize)
      ensures n == 1 && old(curSize) == data.Length ==> curSize == data.Length
      ensures old(rd) == 0 ==> rd == 0
    {
      hide UnreadOf, Cell, Count, Index.Unread;
      ghost var before, mem := Idx(), data[..];
      var start := wr;
      if rd <= wr {
        if wr + n >= data.Length {
          if rd == 0 {
            return None;
          }
          if wr + n == data.Length {
            wr := 0;
          } else {
            if n > rd - 1 {
              return None;
            }
            curSize := wr;
            wr := 0;
            start := 0;
            if rd == curSize {
              rd := 0;
              if curSize < data.Length {
                curSize := data.Length;
              }
            }
            wr := wr + n;
          }
        } else {
          wr := wr + n;
        }
      } else {
        if n > rd - wr - 1 {
          return None;
        }
        wr := wr + n;
      }
      AddNewest(before, mem, n);
      assert Idx() == Extend(before, n);
      return Some(start);
    }

    /** Takes the `n` oldest elements, which lie contiguously at the returned position. */
    method Consume(n: nat) returns (p: Option<nat>)
      requires Valid()
      modifies this
      ensures Valid()
      ensures p.Some? <==> n <= old(Contiguous(Idx()))
      ensures p.None? ==> Idx() == old(Idx())
      ensures p.Some? ==> n <= |old(Contents())|
                          && p.value + n <= data.Length && data[p.value..p.value + n] == old(Contents())[..n]
                          && Contents() == old(Contents())[n..]
      ensures p.Some? ==> Idx() == Advance(old(Idx()), n)
      ensures p.Some? ==> p.value == old(rd) && wr == old(wr)
      ensures p.Some? ==> rd == if old(rd > wr) && old(rd) + n == old(curSize) then 0 else old(rd) + n
      ensures old(curSize) == data.Length ==> curSize == data.Length
    {
      hide UnreadOf, Cell, Count, Index.Unread;
      var start := rd;
      ghost var before, mem := Idx(), data[..];
      if rd <= wr {
        if rd + n > wr {
          return None;
        }
        rd := rd + n;
      } else {
        if rd + n > curSize {
          return None;
        } else if rd + n == curSize {
          if curSize < data.Length {
            curSize := data.Length;
          }
          rd := 0;
        } else {
          rd := rd + n;
        }
      }
      TakeOldest(before, mem, n);
      assert Idx() == Advance(before, n);
      return Some(start);
    }

    lemma NothingContiguous()
      requires Valid()
      ensures Contiguous(Idx()) == 0 <==> Contents() == []
    {
    }

    /** The largest amount Consume can take at once; 0 exactly when nothing is unread. */
    method ReadSize() returns (n: nat)
      requires Valid()
      ensures n == Contiguous(Idx())
      ensures n == 0 <==> Contents() == []
    {
      if rd <= wr {
        n := wr - rd;
      } else {
        n := curSize - rd;
      }
    }

    /** The largest amount that fits at the write position. */
    method WriteSize() returns (n: nat)
      requires Valid()
      ensures n > 0 || data.Length > 0 ==> Idx().Place(n) == Some(wr)
      ensures forall m :: m > n ==> Idx().Place(m) != Some(wr)
    {
      if rd <= wr {
        n := data.Length - wr;
        if n > 0 && rd == 0 {
          n := n - 1;
        }
      } else {
        n := rd - wr - 1;
      }
    }

    /** Produce followed by filling the region. */
    method PutAt(s: seq<T>) returns (p: Option<nat>)
      requires Valid()
      modifies this, data
      ensures Valid()
      ensures p == old(Idx().Place(|s|))
      ensures Contents() == if p.Some? then old(Contents()) + s else old(Contents())
      ensures p.Some? ==> p.value + |s| <= data.Length && data[p.value..p.value + |s|] == s
      ensures Idx() == if p.Some? then Extend(old(Idx()), |s|) else old(Idx())
      ensures |s| == 1 && old(curSize) == data.Length ==> curSize == data.Length
      ensures old(rd) == 0 ==> rd == 0
    {
      hide Index.Place, Index.Ok, Extend, Contiguous, Cell, Count, UnreadOf;
      ghost var was := Contents();
      p := Produce(|s|);
      if p.None? {
        return;
      }
      var start := p.value;
      ghost var mem := data[..];
      forall k | 0 <= k < |s| {
        data[start + k] := s[k];
      }
      Filled(Idx(), mem, data[..], start, s, was);
    }

    method Put(s: seq<T>) returns (ok: bool)
      requires Valid()
      modifies this, data
      ensures Valid()
      ensures ok <==> old(Idx().Place(|s|).Some?)
      ensures Contents() == if ok then old(Contents()) + s else old(Contents())
      ensures Idx() == if ok then Extend(old(Idx()), |s|) else old(Idx())
      ensures |s| == 1 && old(curSize) == data.Length ==> curSize == data.Length
      ensures old(rd) == 0 ==> rd == 0
    {
      hide Extend, Valid, Contents;
      var p := PutAt(s);
      ok := p.Some?;
    }
  }

  datatype Op<T> = Write(s: seq<T>) | Read(n: nat)

  /** A ring as far as the positions tell: where the next region for the writer and for the reader begins, and
      where the data ends that lies behind the reader when the writer has gone back to 0. */
  datatype Places = Places(wr: nat, rd: nat, end: nat)

  /** The positions after a request, from its result alone: `at` is where the region begins that was handed out.
      The writer goes on behind its region, or at 0 behind the end of the buffer; when its region begins at 0 out of
      turn, what was written before ends where the writer was, and the reader of an empty buffer follows at once.
      The reader goes on behind its region, or at 0 behind the end of the data. */
  function Moved<T>(size: nat, p: Places, op: Op<T>, at: Option<nat>): Places {
    match op
    case Write(s) =>
      if at.None? then p
      else
        var next := if at.value + |s| == size then 0 else at.value + |s|;
        if at.value == p.wr then p.(wr := next)
        else if p.rd == p.wr then Places(next, 0, size)
        else Places(next, p.rd, p.wr)
    case Read(n) =>
      if at.None? then p
      else if p.wr < p.rd && at.value + n == p.end then p.(rd := 0, end := size)
      else p.(rd := at.value + n)
  }

  /** The positions of a new ring after these requests with these results. */
  function PlacesAfter<T>(size: nat, ops: seq<Op<T>>, at: seq<Option<nat>>): Places
    requires |ops| == |at|
  {
    if ops == [] then Places(0, 0, size)
    else
      var last := |ops| - 1;
      Moved(size, PlacesAfter(size, ops[..last], at[..last]), ops[last], at[last])
  }

  /** Cells that hold data which was written and not yet read. */
  predicate Holds(p: Places, k: int) {
    if p.rd <= p.wr then p.rd <= k < p.wr else p.rd <= k < p.end || 0 <= k < p.wr
  }

  /** `n` cells from `start` may be written: they are in the buffer and hold nothing unread, a writer that goes back
      does not pass the reader, and the writer does not catch up with the reader. */
  ghost predicate Writable(size: nat, p: Places, start: nat, n: nat) {
    && start < size && start + n <= size
    && (forall k :: start <= k < start + n ==> !Holds(p, k))
    && (start != p.wr ==> !(start <= p.rd < start + n))
    && (n > 0 ==> (if start + n == size then 0 else start + n) != p.rd)
  }

  /** The result that a request must have: a region at the position of the writer if that is writable, otherwise at 0
      if that is, otherwise none; the cells from the position of the reader on, if they all hold data. */
  ghost predicate Deserved<T>(size: nat, p: Places, op: Op<T>, at: Option<nat>) {
    match op
    case Write(s) =>
      if Writable(size, p, p.wr, |s|) then at == Some(p.wr)
      else if Writable(size, p, 0, |s|) then at == Some(0)
      else at.None?
    case Read(n) =>
      if forall k :: p.rd <= k < p.rd + n ==> Holds(p, k) then at == Some(p.rd) else at.None?
  }

  function PlacesOf(i: Index): Places {
    Places(i.wr, i.rd, i.curSize)
  }

  lemma ReadDeserved<T>(i: Index, n: nat)
    requires i.Ok()
    ensures n <= Contiguous(i) <==> forall k :: i.rd <= k < i.rd + n ==> Holds(PlacesOf(i), k)
  {
    var c := Contiguous(i);
    assert !Holds(PlacesOf(i), i.rd + c);
    assert forall k :: i.rd <= k < i.rd + c ==> Holds(PlacesOf(i), k);
  }

  lemma WriteDeserved(i: Index, n: nat)
    requires i.Ok()
    ensures i.Place(n) == if Writable(i.size, PlacesOf(i), i.wr, n) then Some(i.wr)
                          else if Writable(i.size, PlacesOf(i), 0, n) then Some(0) else None
  {
    var p := PlacesOf(i);
    assert forall start: nat :: Writable(i.size, p, start, n) <==> i.Room(start, n) by {
      assert forall k :: Holds(p, k) <==> i.Unread(k);
    }
    PlaceFindsRoom(i, n);
    if i.Room(i.wr, n) {
      AtWriterFirst(i, n);
    }
  }

  lemma AtWriterFirst(i: Index, n: nat)
    requires i.Ok() && i.Room(i.wr, n)
    ensures i.Place(n) == Some(i.wr)
  {
    assert i.rd > i.wr ==> i.Unread(i.rd);
  }

  /** What the requests that succeeded put in. */
  function Accepted<T>(ops: seq<Op<T>>, ats: seq<Option<nat>>): seq<T>
    requires |ops| == |ats|
  {
    if ops == [] then []
    else
      var last := |ops| - 1;
      Accepted(ops[..last], ats[..last]) + if ats[last].Some? && ops[last].Write? then ops[last].s else []
  }

  /** How much the requests that succeeded took out. */
  function Taken<T>(ops: seq<Op<T>>, ats: seq<Option<nat>>): nat
    requires |ops| == |ats|
  {
    if ops == [] then 0
    else
      var last := |ops| - 1;
      Taken(ops[..last], ats[..last]) + if ats[last].Some? && ops[last].Read? then ops[last].n else 0
  }

  /** The ring's own placing and moving of indices give the deserved results and positions. */
  lemma PlacesFollow<T>(i: Index, op: Op<T>)
    requires i.Ok()
    ensures op.Write? ==>
              && Deserved(i.size, PlacesOf(i), op, i.Place(|op.s|))
              && PlacesOf(if i.Place(|op.s|).Some? then Extend(i, |op.s|) else i) == Moved(i.size, PlacesOf(i), op, i.Place(|op.s|))
    ensures op.Read? ==>
              var at := if op.n <= Contiguous(i) then Some(i.rd) else None;
              && Deserved(i.size, PlacesOf(i), op, at)
              && PlacesOf(if op.n <= Contiguous(i) then Advance(i, op.n) else i) == Moved(i.size, PlacesOf(i), op, at)
  {
    match op
    case Write(s) => WriteDeserved(i, |s|);
    case Read(n) => ReadDeserved<T>(i, n);
  }

  method DoWrite<T>(ring: Ring<T>, s: seq<T>) returns (at: Option<nat>)
    requires ring.Valid()
    modifies ring, ring.data
    ensures ring.Valid()
    ensures Deserved(ring.data.Length, old(PlacesOf(ring.Idx())), Write(s), at)
    ensures PlacesOf(ring.Idx()) == Moved(ring.data.Length, old(PlacesOf(ring.Idx())), Write(s), at)
    ensures ring.Contents() == if at.Some? then old(ring.Contents()) + s else old(ring.Contents())
  {
    PlacesFollow(ring.Idx(), Write(s));
    hide Index.Place, Index.Ok, Contiguous, Count, Cell, UnreadOf, Advance, Extend, Deserved, Moved, PlacesOf;
    at := ring.PutAt(s);
  }

  lemma Halves<T>(s: seq<T>, n: nat)
    requires n <= |s|
    ensures s[..n] + s[n..] == s
  {
  }

  method DoRead<T>(ring: Ring<T>, n: nat) returns (at: Option<nat>, got: seq<T>)
    requires ring.Valid()
    modifies ring
    ensures ring.Valid()
    ensures Deserved<T>(ring.data.Length, old(PlacesOf(ring.Idx())), Read(n), at)
    ensures PlacesOf(ring.Idx()) == Moved<T>(ring.data.Length, old(PlacesOf(ring.Idx())), Read(n), at)
    ensures at.None? ==> got == [] && ring.Contents() == old(ring.Contents())
    ensures at.Some? ==> |got| == n && got + ring.Contents() == old(ring.Contents())
  {
    PlacesFollow<T>(ring.Idx(), Read(n));
    hide Index.Place, Index.Ok, Contiguous, Count, Cell, UnreadOf, Advance, Extend, Deserved, Moved, PlacesOf;
    ghost var all := ring.Contents();
    at := ring.Consume(n);
    got := [];
    if at.Some? {
      got := ring.data[at.value..at.value + n];
      Halves(all, n);
    }
  }

  method Do<T>(ring: Ring<T>, op: Op<T>) returns (at: Option<nat>, got: seq<T>)
    requires ring.Valid()
    modifies ring, ring.data
    ensures ring.Valid()
    ensures Deserved(ring.data.Length, old(PlacesOf(ring.Idx())), op, at)
    ensures PlacesOf(ring.Idx()) == Moved(ring.data.Length, old(PlacesOf(ring.Idx())), op, at)
    ensures at.None? ==> got == [] && ring.Contents() == old(ring.Contents())
    ensures at.Some? && op.Write? ==> got == [] && ring.Contents() == old(ring.Contents()) + op.s
    ensures at.Some? && op.Read? ==> |got| == op.n && got + ring.Contents() == old(ring.Contents())
  {
    hide *;
    match op
    case Write(s) =>
      at := DoWrite(ring, s);
      got := [];
    case Read(n) =>
      at, got := DoRead(ring, n);
  }

  lemma LogStep<T>(ops: seq<Op<T>>, i: nat, ats: seq<Option<nat>>, at: Option<nat>)
    requires i < |ops| && |ats| == i
    ensures Accepted(ops[..i + 1], ats + [at]) == Accepted(ops[..i], ats) + if at.Some? && ops[i].Write? then ops[i].s else []
    ensures Taken(ops[..i + 1], ats + [at]) == Taken(ops[..i], ats) + if at.Some? && ops[i].Read? then ops[i].n else 0
  {
    assert ops[..i + 1][..i] == ops[..i] && (ats + [at])[..i] == ats;
  }

  lemma QueueStep<T>(ops: seq<Op<T>>, i: nat, ats: seq<Option<nat>>, at: Option<nat>, consumed: seq<T>, was: seq<T>, got: seq<T>, now: seq<T>)
    requires i < |ops| && |ats| == i
    requires consumed + was == Accepted(ops[..i], ats) && |consumed| == Taken(ops[..i], ats)
    requires at.None? ==> got == [] && now == was
    requires at.Some? && ops[i].Write? ==> got == [] && now == was + ops[i].s
    requires at.Some? && ops[i].Read? ==> |got| == ops[i].n && got + now == was
    ensures consumed + got + now == Accepted(ops[..i + 1], ats + [at])
    ensures |consumed + got| == Taken(ops[..i + 1], ats + [at])
  {
    LogStep(ops, i, ats, at);
    Recombine(consumed, was, got, now, if at.Some? && ops[i].Write? then ops[i].s else []);
  }

  lemma Recombine<T>(consumed: seq<T>, was: seq<T>, got: seq<T>, now: seq<T>, added: seq<T>)
    requires (got == [] && now == was + added) || (added == [] && got + now == was)
    ensures consumed + got + now == consumed + was + added
  {
    assert got == [] ==> consumed + got == consumed;
    assert consumed + got + now == consumed + (got + now);
    assert consumed + (was + added) == consumed + was + added;
  }

  lemma PlacesStep<T>(size: nat, ops: seq<Op<T>>, i: nat, ats: seq<Option<nat>>, at: Option<nat>)
    requires i < |ops| && |ats| == i
    ensures PlacesAfter(size, ops[..i + 1], ats + [at]) == Moved(size, PlacesAfter(size, ops[..i], ats), ops[i], at)
  {
    assert ops[..i + 1][..i] == ops[..i] && (ats + [at])[..i] == ats;
  }

  /** Each request has its deserved result, given those before. */
  ghost predicate AllDeserved<T>(size: nat, ops: seq<Op<T>>, ats: seq<Option<nat>>)
    requires |ats| <= |ops|
  {
    forall k :: 0 <= k < |ats| ==> Deserved(size, PlacesAfter(size, ops[..k], ats[..k]), ops[k], ats[k])
  }

  lemma AnotherDeserved<T>(size: nat, ops: seq<Op<T>>, ats: seq<Option<nat>>, at: Option<nat>)
    requires |ats| < |ops| && AllDeserved(size, ops, ats)
    requires Deserved(size, PlacesAfter(size, ops[..|ats|], ats), ops[|ats|], at)
    ensures AllDeserved(size, ops, ats + [at])
  {
    var more := ats + [at];
    assert more[..|ats|] == ats;
    assert forall k :: 0 <= k < |ats| ==> more[..k] == ats[..k];
    hide Deserved, PlacesAfter;
  }

  /** Any sequence of requests on a buffer of any size is a byte queue: what came out, followed by
      what is still inside, is what the successful requests put in, in order.  `ats` says where the
      regions begin, and follows from the regions handed out before: the writer's begins where its last
      one ended if it fits there, otherwise at 0 if it fits there, and the reader's where its last one
      ended, or at 0 behind the end of the data. */
  method Drive<T(0)>(size: nat, ops: seq<Op<T>>) returns (ats: seq<Option<nat>>, consumed: seq<T>, left: seq<T>)
    ensures |ats| == |ops| && AllDeserved(size, ops, ats)
    ensures consumed + left == Accepted(ops, ats)
    ensures |consumed| == Taken(ops, ats)
  {
    hide Deserved, Moved, Index.Place, Index.Ok, Count, Cell, Contiguous, AllDeserved;
    var buf := new T[size];
    var ring := new Ring(buf);
    ats, consumed := [], [];
    NothingDeserved(size, ops);
    for i := 0 to |ops|
      invariant ring.Valid() && fresh(ring) && fresh(ring.data) && ring.data.Length == size
      invariant |ats| == i && AllDeserved(size, ops, ats)
      invariant PlacesOf(ring.Idx()) == PlacesAfter(size, ops[..i], ats)
      invariant consumed + ring.Contents() == Accepted(ops[..i], ats)
      invariant |consumed| == Taken(ops[..i], ats)
    {
      ghost var was := ring.Contents();
      var at, got := Do(ring, ops[i]);
      AnotherDeserved(size, ops, ats, at);
      PlacesStep(size, ops, i, ats, at);
      QueueStep(ops, i, ats, at, consumed, was, got, ring.Contents());
      ats, consumed := ats + [at], consumed + got;
    }
    assert ops[..|ops|] == ops;
    left := UnreadOf(Index(ring.data.Length, ring.curSize, ring.rd, ring.wr), ring.data[..]);
  }

  lemma NothingDeserved<T>(size: nat, ops: seq<Op<T>>)
    ensures AllDeserved(size, ops, [])
  {
  }
}
