/**
 `ThreadMessage` (include/ThreadMinimal.h) as a record: an id, the queue
 to respond on, two slots each of bool, string, size_t, float and double,
 and an optional byte buffer with its length.

 Float and double slots hold bit patterns and are never computed with:
 `0.0` is the all-zero pattern. A slot index is 0 or 1, as the two-element
 arrays of the source demand. The response queue is identified by a number
 standing for the ThreadQueue pointer.
 */
module Message {
  import opened Basics

  /** A two-element slot array. */
  datatype Pair<T> = Pair(first: T, second: T)

  function Slot<T>(p: Pair<T>, idx: nat): T
    requires idx < 2
  {
    if idx == 0 then p.first else p.second
  }

  /** Stores v in slot idx; the other slot keeps its value. */
  function WithSlot<T>(p: Pair<T>, idx: nat, v: T): (r: Pair<T>)
    requires idx < 2
    ensures Slot(r, idx) == v
    ensures Slot(r, 1 - idx) == Slot(p, 1 - idx)
  {
    if idx == 0 then p.(first := v) else p.(second := v)
  }

  datatype Msg = Msg(
    id: uint32,
    qRespond: Option<nat>,
    bools: Pair<bool>,
    strs: Pair<string>,
    ints: Pair<uint64>,
    flts: Pair<bv32>,
    dbls: Pair<bv64>,
    buf: Option<seq<uint8>>,
    bufLen: uint64)

  /** `clear`: everything back to zero or empty except the float slots,
      which clear does not mention. */
  function Clear(m: Msg): (r: Msg)
    ensures r.id == 0 && r.qRespond == None && r.buf == None && r.bufLen == 0
    ensures Slot(r.bools, 0) == false && Slot(r.bools, 1) == false
    ensures Slot(r.strs, 0) == "" && Slot(r.strs, 1) == ""
    ensures Slot(r.ints, 0) == 0 && Slot(r.ints, 1) == 0
    ensures Slot(r.dbls, 0) == 0 && Slot(r.dbls, 1) == 0
    ensures r.flts == m.flts
  {
    Msg(0, None, Pair(false, false), Pair("", ""), Pair(0, 0), m.flts, Pair(0, 0), None, 0)
  }

  /** `ThreadMessage()`: NULL response queue and buffer, then clear. The float
      slots are never initialised, so their content is a parameter. */
  function NewMessage(flts: Pair<bv32>): (r: Msg)
    ensures r == Clear(r) && r.flts == flts
  {
    Msg(0, None, Pair(false, false), Pair("", ""), Pair(0, 0), flts, Pair(0, 0), None, 0)
  }

  /** Clearing forgets everything but the floats: a cleared message is a fresh
      one, and clearing twice is clearing once. */
  lemma {:induction false} ClearIsFresh(m: Msg)
    ensures Clear(m) == NewMessage(m.flts)
    ensures Clear(Clear(m)) == Clear(m)
    ensures forall n: Msg | n.flts == m.flts :: Clear(n) == Clear(m)
  {
  }

  function SetID(m: Msg, id: uint32): (r: Msg)
    ensures r.id == id && r.(id := m.id) == m
  {
    m.(id := id)
  }

  function SetQRespond(m: Msg, q: Option<nat>): (r: Msg)
    ensures r.qRespond == q && r.(qRespond := m.qRespond) == m
  {
    m.(qRespond := q)
  }

  function SetBool(m: Msg, idx: nat, b: bool): (r: Msg)
    requires idx < 2
    ensures Slot(r.bools, idx) == b && Slot(r.bools, 1 - idx) == Slot(m.bools, 1 - idx)
    ensures r.(bools := m.bools) == m
  {
    m.(bools := WithSlot(m.bools, idx, b))
  }

  function SetStr(m: Msg, idx: nat, s: string): (r: Msg)
    requires idx < 2
    ensures Slot(r.strs, idx) == s && Slot(r.strs, 1 - idx) == Slot(m.strs, 1 - idx)
    ensures r.(strs := m.strs) == m
  {
    m.(strs := WithSlot(m.strs, idx, s))
  }

  /** `SwapStr`: the slot takes the caller's string and the caller gets the
      slot's previous content back. */
  function SwapStr(m: Msg, idx: nat, s: string): (r: (Msg, string))
    requires idx < 2
    ensures r.1 == Slot(m.strs, idx)
    ensures r.0 == SetStr(m, idx, s)
  {
    (SetStr(m, idx, s), Slot(m.strs, idx))
  }

  /** Swapping twice with what came back restores both sides. */
  lemma {:induction false} SwapStrTwice(m: Msg, idx: nat, s: string)
    requires idx < 2
    ensures var (m1, s1) := SwapStr(m, idx, s);
            SwapStr(m1, idx, s1) == (m, s)
  {
    var m1 := SetStr(m, idx, s);
    var m2 := SetStr(m1, idx, Slot(m.strs, idx));
    assert m2.strs == m.strs;
  }

  function SetInt(m: Msg, idx: nat, i: uint64): (r: Msg)
    requires idx < 2
    ensures Slot(r.ints, idx) == i && Slot(r.ints, 1 - idx) == Slot(m.ints, 1 - idx)
    ensures r.(ints := m.ints) == m
  {
    m.(ints := WithSlot(m.ints, idx, i))
  }

  function SetFlt(m: Msg, idx: nat, f: bv32): (r: Msg)
    requires idx < 2
    ensures Slot(r.flts, idx) == f && Slot(r.flts, 1 - idx) == Slot(m.flts, 1 - idx)
    ensures r.(flts := m.flts) == m
  {
    m.(flts := WithSlot(m.flts, idx, f))
  }

  function SetDbl(m: Msg, idx: nat, d: bv64): (r: Msg)
    requires idx < 2
    ensures Slot(r.dbls, idx) == d && Slot(r.dbls, 1 - idx) == Slot(m.dbls, 1 - idx)
    ensures r.(dbls := m.dbls) == m
  {
    m.(dbls := WithSlot(m.dbls, idx, d))
  }

  /** `SetBuf(p, l)`: a fresh l-byte copy of the first l bytes of p. The
      memcpy reads l bytes, so p must hold at least that many. */
  function SetBuf(m: Msg, p: seq<uint8>, l: uint64): (r: Msg)
    requires l <= |p|
    ensures r.buf == Some(p[..l]) && |r.buf.value| == r.bufLen == l
    ensures forall i :: 0 <= i < l ==> r.buf.value[i] == p[i]
    ensures r.(buf := m.buf, bufLen := m.bufLen) == m
  {
    m.(buf := Some(p[..l]), bufLen := l)
  }

  /** A setter's value is read back by its getter whatever other setters ran
      after it on other fields or the other slot. */
  lemma {:induction false} SettersCommute(m: Msg, i: nat, j: nat, b: bool, s: string, n: uint64)
    requires i < 2 && j < 2 && i != j
    ensures Slot(SetBool(SetBool(m, i, b), j, !b).bools, i) == b
    ensures Slot(SetStr(SetInt(m, j, n), i, s).strs, i) == s
    ensures SetInt(SetStr(m, i, s), j, n) == SetStr(SetInt(m, j, n), i, s)
    ensures SetBool(SetBool(m, i, b), j, b) == SetBool(SetBool(m, j, b), i, b)
  {
  }
}
