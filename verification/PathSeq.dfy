/** The store beneath both path kinds: the first elements inline, deeper ones in an overflow slice. */
module PathSeq {

  const INLINE_CAPACITY := 8

  class Sequence<T(0)> {
    const inline: array<T>
    const zero: T
    var overflow: seq<T>
    var length: nat

    ghost predicate Valid()
      reads this
    {
      inline.Length == INLINE_CAPACITY && length <= INLINE_CAPACITY + |overflow|
    }

    ghost function Contents(): (s: seq<T>)
      requires Valid()
      reads this, inline
      ensures |s| == length
    {
      if length <= INLINE_CAPACITY then inline[..length]
      else inline[..] + overflow[..length - INLINE_CAPACITY]
    }

    constructor (zero: T)
      ensures Valid() && Contents() == [] && fresh(inline)
    {
      this.zero := zero;
      inline := new T[INLINE_CAPACITY](_ => zero);
      overflow := [];
      length := 0;
    }

    method Push(value: T)
      requires Valid()
      modifies this, inline
      ensures Valid() && Contents() == old(Contents()) + [value]
    {
      if length < inline.Length {
        inline[length] := value;
      } else {
        var overflowIndex := length - inline.Length;
        if overflowIndex < |overflow| {
          overflow := overflow[overflowIndex := value];
        } else {
          overflow := overflow + [value];
        }
      }
      length := length + 1;
    }

    method Pop()
      requires Valid()
      modifies this, inline
      ensures Valid()
      ensures Contents() == if old(Contents()) == [] then [] else old(Contents())[..old(length) - 1]
    {
      if length == 0 {
        return;
      }
      length := length - 1;
      if length < inline.Length {
        inline[length] := zero;
      } else {
        overflow := overflow[length - inline.Length := zero];
      }
    }

    function At(index: nat): (value: T)
      requires Valid() && index < length
      reads this, inline
      ensures value == Contents()[index]
    {
      if index < inline.Length then inline[index] else overflow[index - inline.Length]
    }

    function Len(): (n: nat)
      requires Valid()
      reads this, inline
      ensures n == |Contents()|
    {
      length
    }
  }

  /** A push followed by a pop leaves any sequence, inline or overflowing, as it was. */
  method PushThenPop<T(0)>(s: Sequence<T>, value: T)
    requires s.Valid()
    modifies s, s.inline
    ensures s.Valid() && s.Contents() == old(s.Contents())
  {
    s.Push(value);
    s.Pop();
  }
}
