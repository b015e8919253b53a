/** A buffer that keeps the most recent items only. */
module RingBuffer {

  const UINT_MODULUS := 0x1_0000_0000

  // ----- the reference: all items there ever were -----

  /** The most recent `size` items. */
  function Recent<T>(all: seq<T>, size: nat): seq<T> { if |all| <= size then all else all[|all| - size..] }

  /** How many items there are besides; counted modulo the width of the counter. */
  function Skipped(count: nat, size: nat): nat { (if count > size then count - size else 0) % UINT_MODULUS }

  // ----- the ring -----

  /** What a ring shows when the next item goes to `appendPos`. */
  function Shown<T>(ring: seq<T>, appendPos: nat, wrapped: bool): seq<T>
    requires appendPos <= |ring|
  {
    if wrapped then ring[appendPos..] + ring[..appendPos] else ring[..appendPos]
  }

  /** The ring stands for all items. */
  ghost predicate Represents<T>(ring: seq<T>, appendPos: nat, wrapped: bool, all: seq<T>) {
    && 0 < |ring|
    && appendPos <= |ring|
    && wrapped == (|all| > |ring|)
    && (wrapped ==> appendPos > 0)
    && Shown(ring, appendPos, wrapped) == Recent(all, |ring|)
  }

  /** Where in the ring an offset from the oldest item is. */
  function Position(appendPos: nat, wrapped: bool, size: nat, offset: nat): nat
    requires size > 0
  {
    if wrapped then (appendPos + offset) % size else offset
  }

  lemma ShownAt<T>(ring: seq<T>, appendPos: nat, wrapped: bool, offset: nat)
    requires appendPos <= |ring| && offset < |Shown(ring, appendPos, wrapped)|
    ensures Position(appendPos, wrapped, |ring|, offset) < |ring|
    ensures ring[Position(appendPos, wrapped, |ring|, offset)] == Shown(ring, appendPos, wrapped)[offset]
  {
    if wrapped { AroundOnce(appendPos + offset, |ring|); }
  }

  lemma AroundOnce(n: nat, size: nat)
    requires n < 2 * size
    ensures n % size == if n < size then n else n - size
  {
    if n >= size { assert (n - size) % size == n - size; }
  }

  lemma AppendKeeps<T>(ring: seq<T>, appendPos: nat, wrapped: bool, all: seq<T>, what: T)
    requires Represents(ring, appendPos, wrapped, all)
    ensures
      var full := appendPos == |ring|;
      var pos := if full then 0 else appendPos;
      Represents(ring[pos := what], pos + 1, wrapped || full, all + [what])
  {
    var full := appendPos == |ring|;
    var pos := if full then 0 else appendPos;
    var after := ring[pos := what];
    assert after[..pos + 1] == ring[..pos] + [what] && after[pos + 1..] == ring[pos + 1..];
    hide Represents;
    assert |all| >= |ring| ==> Recent(all + [what], |ring|) == Recent(all, |ring|)[1..] + [what];
    if full {
      assert Shown(ring, appendPos, wrapped) == ring;
      assert after[1..] + after[..1] == ring[1..] + [what];
    } else if wrapped {
      assert Shown(ring, appendPos, wrapped)[1..] == ring[pos + 1..] + ring[..pos];
      assert after[pos + 1..] + after[..pos + 1] == ring[pos + 1..] + ring[..pos] + [what];
    }
  }

  class RingBuffer<T(0)> {
    var buf: array<T>
    var appendPos: nat
    var wrapped: bool
    var skipped: nat

    /** Everything appended since the last clear. */
    ghost var All: seq<T>

    ghost predicate Valid()
      reads this, buf
    {
      Represents(buf[..], appendPos, wrapped, All) && skipped == Skipped(|All|, buf.Length)
    }

    constructor (size: int)
      requires size >= 1
      ensures Valid() && All == [] && buf.Length == size && fresh(buf)
    {
      buf := new T[size];
      appendPos, wrapped, skipped := 0, false, 0;
      All := [];
    }

    /** The offset behind the most recent item. */
    function End(): (n: nat)
      requires Valid()
      reads this, buf
      ensures n == |Recent(All, buf.Length)|
    {
      if wrapped then buf.Length else appendPos
    }

    /** What an iterator at this offset points to. */
    function At(offset: int): (item: T)
      requires Valid() && 0 <= offset < End()
      reads this, buf
      ensures item == Recent(All, buf.Length)[offset]
    {
      ShownAt(buf[..], appendPos, wrapped, offset);
      buf[Position(appendPos, wrapped, buf.Length, offset)]
    }

    method Append(what: T)
      requires Valid()
      modifies this, buf
      ensures Valid() && buf == old(buf) && All == old(All) + [what]
    {
      AppendKeeps(buf[..], appendPos, wrapped, All, what);
      CountsOn(|All|, buf.Length);
      hide *;
      if appendPos == buf.Length {
        wrapped := true;
        appendPos := 0;
      }
      if wrapped {
        skipped := (skipped + 1) % UINT_MODULUS;
      }
      buf[appendPos] := what;
      appendPos := appendPos + 1;
      All := All + [what];
    }

    method Clear()
      requires Valid()
      modifies this
      ensures Valid() && All == [] && buf.Length == old(buf.Length) && fresh(buf)
    {
      buf := new T[buf.Length];
      wrapped := false;
      appendPos := 0;
      skipped := 0;
      All := [];
    }

    method SkippedCount() returns (n: nat)
      requires Valid()
      ensures n == Skipped(|All|, buf.Length)
    {
      n := skipped;
    }

    /** Going from the beginning to the end shows the most recent items, oldest first. */
    method Iterate() returns (items: seq<T>)
      requires Valid()
      ensures items == Recent(All, buf.Length)
    {
      hide *;
      items := [];
      var offset := 0;
      ghost var recent := Recent(All, buf.Length);
      while offset != End()
        invariant offset <= End()
        invariant items == recent[..offset]
        decreases End() - offset
      {
        items := items + [At(offset)];
        offset := offset + 1;
      }
    }
  }

  lemma CountsOn(count: nat, size: nat)
    ensures Skipped(count + 1, size)
         == if count >= size then (Skipped(count, size) + 1) % UINT_MODULUS else Skipped(count, size)
  {
  }
}
