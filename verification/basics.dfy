/**
 Fixed-width integer ranges and the Option type shared by every module of the
 libthrocket model. The C++ source works with `uint8_t`, `uint16_t`, `uint32_t`
 and `size_t`; here they are subset types of the unbounded `int`, so every
 operation that could leave a range has to say so explicitly. The two text
 splitters serve the parsers that read formatted strings back.
 */
module Basics {

  type uint8 = x: int | 0 <= x < 0x100
  type uint16 = x: int | 0 <= x < 0x1_0000
  type uint32 = x: int | 0 <= x < 0x1_0000_0000
  type uint64 = x: int | 0 <= x < 0x1_0000_0000_0000_0000

  /** A value that may be absent: stands for a NULL pointer result in the source. */
  datatype Option<+T> = None | Some(value: T)

  /** Sum of a sequence of naturals, accumulated from the back so that loops
      which append one element per iteration can keep it as an invariant. */
  function Sum(s: seq<nat>): nat
  {
    if |s| == 0 then 0 else Sum(s[..|s| - 1]) + s[|s| - 1]
  }

  /** Appending one element adds it to the sum. */
  lemma SumSnoc(s: seq<nat>, x: nat)
    ensures Sum(s + [x]) == Sum(s) + x
  {
    assert (s + [x])[..|s|] == s;
  }

  /** The C conversion `(uint32_t) n`: reduction modulo 2^32. */
  function ToUint32(n: int): (r: uint32)
    ensures 0 <= n < 0x1_0000_0000 ==> r == n
    ensures (r - n) % 0x1_0000_0000 == 0
  {
    n % 0x1_0000_0000
  }

  /** The text before and after the first occurrence of c, if c occurs. */
  function SplitFirst(s: string, c: char): (r: Option<(string, string)>)
    ensures r.None? <==> c !in s
    ensures r.Some? ==> s == r.value.0 + [c] + r.value.1 && c !in r.value.0
  {
    if |s| == 0 then None
    else if s[0] == c then Some(([], s[1..]))
    else match SplitFirst(s[1..], c)
      case None => None
      case Some(p) => Some(([s[0]] + p.0, p.1))
  }

  /** Splitting a text whose head holds no c gives the head and the tail back. */
  lemma {:induction false} SplitFirstJoin(a: string, c: char, b: string)
    requires c !in a
    ensures SplitFirst(a + [c] + b, c) == Some((a, b))
  {
    if |a| == 0 {
      assert a + [c] + b == [c] + b;
    } else {
      assert (a + [c] + b)[1..] == a[1..] + [c] + b;
      SplitFirstJoin(a[1..], c, b);
      assert [a[0]] + a[1..] == a;
    }
  }

  /** The text before and after the last occurrence of c, if c occurs. */
  function SplitLast(s: string, c: char): (r: Option<(string, string)>)
    ensures r.None? <==> c !in s
    ensures r.Some? ==> s == r.value.0 + [c] + r.value.1 && c !in r.value.1
  {
    if |s| == 0 then None
    else if s[|s| - 1] == c then Some((s[..|s| - 1], []))
    else match SplitLast(s[..|s| - 1], c)
      case None => None
      case Some(p) => Some((p.0, p.1 + [s[|s| - 1]]))
  }

  /** Splitting a text whose tail holds no c gives the head and the tail back. */
  lemma {:induction false} SplitLastJoin(a: string, c: char, b: string)
    requires c !in b
    ensures SplitLast(a + [c] + b, c) == Some((a, b))
  {
    var s := a + [c] + b;
    if |b| == 0 {
      assert s[..|s| - 1] == a;
    } else {
      var b' := b[..|b| - 1];
      assert s[..|s| - 1] == a + [c] + b';
      assert c !in b' by {
        assert forall i :: 0 <= i < |b'| ==> b'[i] == b[i];
      }
      SplitLastJoin(a, c, b');
      assert b' + [b[|b| - 1]] == b;
    }
  }
}
