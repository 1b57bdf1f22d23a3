/** A growable stack over an array that doubles when it is full. */
module Stack {
  class Stack<T(0)> {
    var data: array<T>
    var size: nat

    ghost predicate Valid()
      reads this
    {
      size <= data.Length && data.Length > 0
    }

    ghost function Contents(): (s: seq<T>)
      requires Valid()
      reads this, data
    {
      data[..size]
    }

    constructor (hint: nat)
      ensures Valid() && Contents() == [] && fresh(data)
      ensures data.Length == if hint > 0 then hint else 10
    {
      data := new T[if hint > 0 then hint else 10];
      size := 0;
    }

    method Push(x: T)
      requires Valid()
      modifies this, data
      ensures Valid() && Contents() == old(Contents()) + [x]
      ensures data == old(data) || fresh(data)
      ensures data.Length == if old(size) == old(data.Length) then 2 * old(data.Length) else old(data.Length)
    {
      if size == data.Length {
        Grow();
      }
      data[size] := x;
      size := size + 1;
    }

    /** The array moves to one twice as long. */
    method Grow()
      requires Valid()
      modifies this`data
      ensures Valid() && fresh(data) && data.Length == 2 * old(data.Length)
      ensures Contents() == old(Contents())
    {
      var more := new T[2 * data.Length];
      var i := 0;
      while i < size
        invariant i <= size && more[..i] == data[..i]
        modifies more
      {
        more[i] := data[i];
        i := i + 1;
      }
      data := more;
    }

    method Pop() returns (x: T)
      requires Valid() && size > 0
      modifies this`size
      ensures Valid() && old(Contents()) == Contents() + [x]
    {
      size := size - 1;
      x := data[size];
    }

    method Get(n: nat) returns (x: T)
      requires Valid() && n < size
      ensures x == Contents()[n]
    {
      x := data[n];
    }
  }
}
