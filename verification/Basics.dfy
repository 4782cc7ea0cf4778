/** Types and functions shared by the modules. */
module Basics {
  datatype Option<+T> = None | Some(value: T)

  type Octet = bv8

  /** The value of a byte. */
  type Byte = x: int | 0 <= x < 256

  /** Integer division truncating toward zero. */
  function TruncDiv(a: int, b: int): int
    requires b != 0
  {
    if (a >= 0) == (b > 0) then Abs(a) / Abs(b) else -(Abs(a) / Abs(b))
  }

  function Abs(x: int): nat { if x < 0 then -x else x }

  function Joined<T>(parts: seq<seq<T>>): seq<T> {
    if parts == [] then [] else parts[0] + Joined(parts[1..])
  }

  lemma {:induction false} JoinedAppend<T>(parts: seq<seq<T>>, last: seq<T>)
    ensures Joined(parts + [last]) == Joined(parts) + last
  {
    if parts == [] {
      assert [last][1..] == [] && parts + [last] == [last];
    } else {
      assert (parts + [last])[0] == parts[0] && (parts + [last])[1..] == parts[1..] + [last];
      JoinedAppend(parts[1..], last);
      assert parts[0] + (Joined(parts[1..]) + last) == (parts[0] + Joined(parts[1..])) + last;
    }
  }
}
