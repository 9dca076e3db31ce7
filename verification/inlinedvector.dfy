/** InlinedVector (lib/abseil-cpp-master/absl/container/inlined_vector.h): its two representations, and the
    lifetimes of the elements in them. */
module InlinedVectors {

  // A slot of storage: without an object, with one whose value has been moved away, or with a value.
  datatype Cell<T> = Raw | Moved | Holding(value: T)

  // --- Stretches of storage --------------------------------------------------------------------------------

  ghost predicate RawIn<T>(a: array<Cell<T>>, from: nat, to: nat)
    reads a
  {
    to <= a.Length && forall i :: from <= i < to ==> a[i].Raw?
  }

  ghost predicate LiveIn<T>(a: array<Cell<T>>, from: nat, to: nat)
    reads a
  {
    to <= a.Length && forall i :: from <= i < to ==> !a[i].Raw?
  }

  // The values stand in the slots from `from` on.
  ghost predicate HoldsAt<T>(a: array<Cell<T>>, from: nat, values: seq<T>)
    reads a
  {
    from + |values| <= a.Length && forall i :: from <= i < from + |values| ==> a[i] == Holding(values[i - from])
  }

  // Nothing has changed but the slots in [from, to).
  twostate predicate Only<T>(a: array<Cell<T>>, from: nat, to: nat)
    reads a
  {
    forall i :: 0 <= i < a.Length && !(from <= i < to) ==> a[i] == old(a[i])
  }

  // UninitializedCopy of moved values: constructs in raw slots, and leaves moved-from objects behind.
  method MoveToOther<T>(src: array<Cell<T>>, from: nat, to: nat, dst: array<Cell<T>>, at: nat, ghost values: seq<T>)
    requires src != dst && from + |values| == to && HoldsAt(src, from, values) && RawIn(dst, at, at + |values|)
    modifies src, dst
    ensures HoldsAt(dst, at, values) && Only(dst, at, at + |values|)
    ensures LiveIn(src, from, to) && Only(src, from, to)
  {
    for i := from to to
      invariant forall j :: from <= j < i ==> src[j].Moved?
      invariant forall j :: at <= j < at + (i - from) ==> dst[j] == Holding(values[j - at])
      invariant Only(src, from, i) && Only(dst, at, at + (i - from))
    {
      dst[at + (i - from)] := Holding(src[i].value);
      src[i] := Moved;
    }
  }

  // The same within one stretch of storage, towards raw slots behind it.
  method MoveToRaw<T>(a: array<Cell<T>>, from: nat, to: nat, at: nat, ghost values: seq<T>)
    requires from + |values| == to <= at && HoldsAt(a, from, values) && RawIn(a, at, at + |values|)
    modifies a
    ensures HoldsAt(a, at, values) && LiveIn(a, from, to)
    ensures forall i :: 0 <= i < a.Length && !(from <= i < to) && !(at <= i < at + |values|) ==> a[i] == old(a[i])
  {
    for i := from to to
      invariant forall j :: from <= j < i ==> a[j].Moved?
      invariant forall j :: at <= j < at + (i - from) ==> a[j] == Holding(values[j - at])
      invariant forall j :: 0 <= j < a.Length && !(from <= j < i) && !(at <= j < at + (i - from)) ==> a[j] == old(a[j])
    {
      a[at + (i - from)] := Holding(a[i].value);
      a[i] := Moved;
    }
  }

  // std::move_backward: assigns to objects, from the last one on.
  method MoveBackward<T>(a: array<Cell<T>>, from: nat, to: nat, end: nat, ghost values: seq<T>)
    requires from + |values| == to <= end && HoldsAt(a, from, values) && LiveIn(a, to, end)
    requires values != [] ==> to < end
    modifies a
    ensures HoldsAt(a, end - |values|, values) && LiveIn(a, from, end - |values|) && Only(a, from, end)
  {
    var i := to;
    while from < i
      invariant from <= i <= to
      invariant forall j :: from <= j < i ==> a[j] == Holding(values[j - from])
      invariant forall j :: end - (to - i) <= j < end ==> a[j] == Holding(values[j - end + |values|])
      invariant LiveIn(a, from, end) && Only(a, from, end)
    {
      i := i - 1;
      a[end - (to - i)] := Holding(a[i].value);
      a[i] := Moved;
    }
  }

  // std::move towards the front.
  method MoveForward<T>(a: array<Cell<T>>, from: nat, to: nat, at: nat, ghost values: seq<T>)
    requires at < from && from + |values| == to && HoldsAt(a, from, values) && LiveIn(a, at, from)
    modifies a
    ensures HoldsAt(a, at, values) && LiveIn(a, at + |values|, to) && Only(a, at, to)
  {
    for i := from to to
      invariant forall j :: i <= j < to ==> a[j] == Holding(values[j - from])
      invariant forall j :: at <= j < at + (i - from) ==> a[j] == Holding(values[j - at])
      invariant LiveIn(a, at, to) && Only(a, at, to)
    {
      a[at + (i - from)] := Holding(a[i].value);
      a[i] := Moved;
    }
  }

  // std::copy and UninitializedCopy of the values of a range: the first assigns, the second constructs.
  method CopyValues<T>(values: seq<T>, a: array<Cell<T>>, at: nat, ghost live: bool)
    requires if live then LiveIn(a, at, at + |values|) else RawIn(a, at, at + |values|)
    modifies a
    ensures HoldsAt(a, at, values) && Only(a, at, at + |values|)
  {
    for i := 0 to |values|
      invariant forall j :: at <= j < at + i ==> a[j] == Holding(values[j - at])
      invariant Only(a, at, at + i)
    {
      a[at + i] := Holding(values[i]);
    }
  }

  method Destroy<T>(a: array<Cell<T>>, from: nat, to: nat)
    requires from <= to && LiveIn(a, from, to)
    modifies a
    ensures RawIn(a, from, to) && Only(a, from, to)
  {
    for i := from to to
      invariant RawIn(a, from, i) && Only(a, from, i)
    {
      a[i] := Raw;
    }
  }

  // The elements stand at the front, but for a gap of n slots at pos, of which those up to startRaw hold an object.
  ghost predicate GapIn<T>(a: array<Cell<T>>, elements: seq<T>, pos: nat, n: nat, startRaw: nat)
    requires pos <= |elements|
    reads a
  {
    && |elements| + n <= a.Length && pos <= startRaw <= pos + n
    && HoldsAt(a, 0, elements[..pos])
    && LiveIn(a, pos, startRaw) && RawIn(a, startRaw, pos + n)
    && HoldsAt(a, pos + n, elements[pos..])
    && RawIn(a, |elements| + n, a.Length)
  }

  lemma PartsHeld<T>(a: array<Cell<T>>, elements: seq<T>, from: nat, to: nat)
    requires HoldsAt(a, 0, elements) && from <= to <= |elements|
    ensures HoldsAt(a, from, elements[from..to])
  {
  }

  lemma PartsMeet<T>(a: array<Cell<T>>, at: nat, first: seq<T>, second: seq<T>)
    requires HoldsAt(a, at, first) && HoldsAt(a, at + |first|, second)
    ensures HoldsAt(a, at, first + second)
  {
  }

  method MoveApart<T>(src: array<Cell<T>>, s: nat, dst: array<Cell<T>>, pos: nat, n: nat, ghost elements: seq<T>)
    requires src != dst && s == |elements| && HoldsAt(src, 0, elements) && pos <= s
    requires s + n <= dst.Length && RawIn(dst, 0, dst.Length)
    modifies src, dst
    ensures GapIn(dst, elements, pos, n, pos) && LiveIn(src, 0, s) && Only(src, 0, s)
  {
    PartsHeld(src, elements, 0, pos);
    PartsHeld(src, elements, pos, s);
    assert elements[0..pos] == elements[..pos] && elements[pos..s] == elements[pos..];
    MoveToOther(src, 0, pos, dst, 0, elements[..pos]);
    MoveToOther(src, pos, s, dst, pos + n, elements[pos..]);
  }

  // The last elements move to slots without an object, and the others over objects.
  method ShiftCells<T>(a: array<Cell<T>>, pos: nat, rawSpace: nat, n: nat, ghost elements: seq<T>)
    returns (startRaw: nat)
    requires rawSpace == |elements| && HoldsAt(a, 0, elements) && RawIn(a, rawSpace, a.Length)
    requires pos <= rawSpace && n > 0 && rawSpace + n <= a.Length
    modifies a
    ensures GapIn(a, elements, pos, n, startRaw)
  {
    var slotsInUsedSpace := rawSpace - pos;
    var newElementsInUsedSpace := if n < slotsInUsedSpace then n else slotsInUsedSpace;
    var newElementsInRawSpace := n - newElementsInUsedSpace;
    var oldElementsInUsedSpace := slotsInUsedSpace - newElementsInUsedSpace;
    var middle := pos + oldElementsInUsedSpace;
    PartsHeld(a, elements, 0, pos);
    PartsHeld(a, elements, pos, middle);
    PartsHeld(a, elements, middle, rawSpace);
    ghost var first, last := elements[pos..middle], elements[middle..rawSpace];
    assert elements[0..pos] == elements[..pos] && elements[pos..] == first + last;
    MoveBoth(a, pos, middle, rawSpace, newElementsInRawSpace, elements[..pos], first, last);
    startRaw := pos + newElementsInUsedSpace;
  }

  method MoveBoth<T>(a: array<Cell<T>>, pos: nat, middle: nat, rawSpace: nat, newRaw: nat,
                     ghost front: seq<T>, ghost first: seq<T>, ghost last: seq<T>)
    requires pos == |front| && middle == pos + |first| && rawSpace == middle + |last|
    requires HoldsAt(a, 0, front) && HoldsAt(a, pos, first) && HoldsAt(a, middle, last)
    requires rawSpace + newRaw + |last| <= a.Length && RawIn(a, rawSpace, a.Length)
    requires first != [] ==> last != [] && newRaw == 0
    modifies a
    ensures HoldsAt(a, 0, front) && LiveIn(a, pos, pos + |last|) && RawIn(a, pos + |last|, pos + |last| + newRaw)
    ensures HoldsAt(a, pos + |last| + newRaw, first + last) && RawIn(a, rawSpace + newRaw + |last|, a.Length)
  {
    MoveToRaw(a, middle, rawSpace, rawSpace + newRaw, last);
    MoveBackward(a, pos, middle, rawSpace, first);
    PartsMeet(a, pos + |last| + newRaw, first, last);
  }

  // --- The vector ------------------------------------------------------------------------------------------

  // The size in the high bits, and whether the vector is allocated in the lowest.
  datatype Tag = Tag(word: nat) {
    function Size(): nat {
      word / 2
    }

    predicate Allocated() {
      word % 2 == 1
    }

    function AddSize(n: nat): Tag {
      Tag(word + n * 2)
    }
  }

  function InlineSize(n: nat): Tag {
    Tag(n * 2)
  }

  function AllocatedSize(n: nat): Tag {
    Tag(n * 2 + 1)
  }

  function Repeat<T>(n: nat, v: T): (r: seq<T>)
    ensures |r| == n && forall i :: 0 <= i < n ==> r[i] == v
  {
    seq(n, i => v)
  }

  class InlinedVector<T> {
    var tag: Tag
    const inlined: array<Cell<T>>
    var allocation: array?<Cell<T>>
    ghost var elements: seq<T>

    // The tag says which representation is in use; the inlined space holds no object unless it is.
    ghost predicate Represented()
      reads this, inlined
    {
      && inlined.Length > 0
      && (tag.Allocated() <==> allocation != null)
      && (tag.Allocated() ==> allocation != inlined && allocation.Length > 0 && RawIn(inlined, 0, inlined.Length))
    }

    function Data(): array<Cell<T>>
      requires tag.Allocated() <==> allocation != null
      reads this
    {
      if tag.Allocated() then allocation else inlined
    }

    // The elements stand in the slots up to the size; all others hold no object.
    ghost predicate Valid()
      reads this, inlined, allocation
    {
      && Represented()
      && tag.Size() == |elements|
      && HoldsAt(Data(), 0, elements)
      && RawIn(Data(), |elements|, Data().Length)
    }

    ghost function Repr(): set<object>
      reads this
    {
      {this, inlined} + if allocation == null then {} else {allocation}
    }

    constructor (inlinedCapacity: nat, n: nat, v: T)
      requires inlinedCapacity > 0
      ensures Valid() && elements == Repeat(n, v) && inlined.Length == inlinedCapacity && fresh(Repr())
      ensures tag.Allocated() <==> n > inlinedCapacity
    {
      inlined := new Cell<T>[inlinedCapacity](_ => Raw);
      allocation := null;
      tag := Tag(0);
      elements := [];
      new;
      InitAssign(n, v);
    }

    method InitAssign(n: nat, v: T)
      requires Valid() && tag == Tag(0)
      modifies this, inlined
      ensures Valid() && elements == Repeat(n, v) && fresh(Repr() - old(Repr()))
      ensures tag.Allocated() <==> n > inlined.Length
    {
      if n > inlined.Length {
        allocation := new Cell<T>[n](_ => Raw);
        CopyValues(Repeat(n, v), allocation, 0, false);
        tag := AllocatedSize(n);
      } else {
        CopyValues(Repeat(n, v), inlined, 0, false);
        tag := InlineSize(n);
      }
      elements := Repeat(n, v);
    }

    // Takes over a new allocation; the objects in the storage in use so far are destroyed.
    method ResetAllocation(newAllocation: array<Cell<T>>, newSize: nat)
      requires Represented() && newAllocation != inlined && newAllocation != allocation && newAllocation.Length > 0
      requires tag.Size() <= Data().Length && LiveIn(Data(), 0, tag.Size()) && RawIn(Data(), tag.Size(), Data().Length)
      modifies this, inlined, allocation
      ensures Represented() && tag == AllocatedSize(newSize) && allocation == newAllocation
      ensures elements == old(elements) && RawIn(old(Data()), 0, old(Data()).Length)
    {
      if tag.Allocated() {
        Destroy(allocation, 0, tag.Size());
      } else {
        Destroy(inlined, 0, tag.Size());
      }
      allocation := newAllocation;
      tag := AllocatedSize(newSize);
    }

    method EnlargeBy(delta: nat)
      requires Valid()
      modifies this, inlined, allocation
      ensures Valid() && elements == old(elements) && tag.Allocated() && fresh(allocation)
      ensures allocation.Length >= inlined.Length && allocation.Length >= |elements| + delta
      ensures RawIn(old(Data()), 0, old(Data()).Length)
    {
      var s := tag.Size();
      var target := if inlined.Length > s + delta then inlined.Length else s + delta;
      var newCapacity := Doubled(Data().Length, target);
      var newAllocation := new Cell<T>[newCapacity](_ => Raw);
      MoveToOther(Data(), 0, s, newAllocation, 0, elements);
      ResetAllocation(newAllocation, s);
    }

    // `before` with a gap of n slots at pos, of which those up to startRaw hold an object and the others none.
    ghost predicate Gapped(before: seq<T>, pos: nat, n: nat, startRaw: nat)
      reads this, inlined, allocation
    {
      && Represented() && pos <= |before|
      && tag.Size() == |before| + n <= Data().Length
      && GapIn(Data(), before, pos, n, startRaw)
    }

    method ShiftRight(pos: nat, n: nat) returns (startUsed: nat, startRaw: nat)
      requires Valid() && pos <= |elements| && n > 0
      modifies this, inlined, allocation
      ensures startUsed == pos && Gapped(old(elements), pos, n, startRaw) && elements == old(elements)
      ensures fresh(Repr() - old(Repr()))
    {
      if tag.Size() + n > Data().Length {
        ShiftToNew(pos, n);
        return pos, pos;
      }
      startRaw := ShiftInPlace(pos, n);
      startUsed := pos;
    }

    // Everything is moved to a new allocation, with a gap that holds no object.
    method ShiftToNew(pos: nat, n: nat)
      requires Valid() && pos <= |elements| && n > 0
      modifies this, inlined, allocation
      ensures Gapped(old(elements), pos, n, pos) && elements == old(elements)
      ensures fresh(Repr() - old(Repr())) && RawIn(old(Data()), 0, old(Data()).Length)
    {
      var s := tag.Size();
      var newCapacity := Doubled(Data().Length, s + n);
      var newAllocation := new Cell<T>[newCapacity](_ => Raw);
      MoveApart(Data(), s, newAllocation, pos, n, elements);
      ResetAllocation(newAllocation, s);
      tag := tag.AddSize(n);
    }

    // There is room: the elements move within the storage.
    method ShiftInPlace(pos: nat, n: nat) returns (startRaw: nat)
      requires Valid() && pos <= |elements| && n > 0 && |elements| + n <= Data().Length
      modifies this, inlined, allocation
      ensures Gapped(old(elements), pos, n, startRaw) && elements == old(elements)
      ensures allocation == old(allocation)
    {
      startRaw := ShiftCells(Data(), pos, tag.Size(), n, elements);
      tag := tag.AddSize(n);
    }

    // The gap is filled: objects that are there are assigned to, and the other slots constructed in.
    method FillGap(pos: nat, startRaw: nat, values: seq<T>)
      requires Gapped(elements, pos, |values|, startRaw)
      modifies this, inlined, allocation
      ensures Valid() && elements == old(elements)[..pos] + values + old(elements)[pos..]
      ensures allocation == old(allocation)
    {
      var used := startRaw - pos;
      CopyValues(values[..used], Data(), pos, true);
      CopyValues(values[used..], Data(), startRaw, false);
      elements := elements[..pos] + values + elements[pos..];
    }

    method InsertWithCount(pos: nat, n: nat, v: T) returns (result: nat)
      requires Valid() && pos <= |elements|
      modifies this, inlined, allocation
      ensures Valid() && result == pos && fresh(Repr() - old(Repr()))
      ensures elements == old(elements)[..pos] + Repeat(n, v) + old(elements)[pos..]
    {
      if n == 0 {
        assert elements == elements[..pos] + Repeat(n, v) + elements[pos..];
        return pos;
      }
      var first, second := ShiftRight(pos, n);
      FillGap(first, second, Repeat(n, v));
      result := first;
    }

    // The range is one of values, so it cannot lie in the vector's own storage.
    method InsertWithForwardRange(pos: nat, range: seq<T>) returns (result: nat)
      requires Valid() && pos <= |elements|
      modifies this, inlined, allocation
      ensures Valid() && result == pos && fresh(Repr() - old(Repr()))
      ensures elements == old(elements)[..pos] + range + old(elements)[pos..]
    {
      if range == [] {
        assert elements == elements[..pos] + range + elements[pos..];
        return pos;
      }
      var first, second := ShiftRight(pos, |range|);
      FillGap(first, second, range);
      result := first;
    }

    method Emplace(pos: nat, v: T) returns (result: nat)
      requires Valid() && pos <= |elements|
      modifies this, inlined, allocation
      ensures Valid() && result == pos && fresh(Repr() - old(Repr()))
      ensures elements == old(elements)[..pos] + [v] + old(elements)[pos..]
    {
      if pos == tag.Size() {
        EmplaceBack(v);
        return tag.Size() - 1;
      }
      var first, second := ShiftRight(pos, 1);
      FillGap(first, second, [v]);
      result := first;
    }

    method EmplaceBack(v: T)
      requires Valid()
      modifies this, inlined, allocation
      ensures Valid() && elements == old(elements) + [v] && fresh(Repr() - old(Repr()))
    {
      var s := tag.Size();
      if s == Data().Length {
        GrowAndEmplaceBack(v);
        return;
      }
      if tag.Allocated() {
        tag := AllocatedSize(s + 1);
      } else {
        tag := InlineSize(s + 1);
      }
      CopyValues([v], Data(), s, false);
      elements := elements + [v];
    }

    method GrowAndEmplaceBack(v: T)
      requires Valid() && tag.Size() == Data().Length
      modifies this, inlined, allocation
      ensures Valid() && elements == old(elements) + [v] && fresh(Repr() - old(Repr()))
    {
      var s := tag.Size();
      var newAllocation := new Cell<T>[2 * Data().Length](_ => Raw);
      CopyValues([v], newAllocation, s, false);
      MoveToOther(Data(), 0, s, newAllocation, 0, elements);
      ResetAllocation(newAllocation, s + 1);
      elements := elements + [v];
    }

    method PopBack()
      requires Valid() && elements != []
      modifies this, inlined, allocation
      ensures Valid() && elements == old(elements)[..|old(elements)| - 1] && allocation == old(allocation)
    {
      var s := tag.Size();
      Destroy(Data(), s - 1, s);
      if tag.Allocated() {
        tag := AllocatedSize(s - 1);
      } else {
        tag := InlineSize(s - 1);
      }
      elements := elements[..s - 1];
    }

    method Erase(from: nat, to: nat) returns (result: nat)
      requires Valid() && from <= to <= |elements|
      modifies this, inlined, allocation
      ensures Valid() && result == from && allocation == old(allocation)
      ensures elements == old(elements)[..from] + old(elements)[to..]
    {
      var s, eraseGap := tag.Size(), to - from;
      if eraseGap > 0 {
        var space := Data();
        if tag.Allocated() {
          tag := AllocatedSize(s - eraseGap);
        } else {
          tag := InlineSize(s - eraseGap);
        }
        MoveForward(space, to, s, from, elements[to..]);
        Destroy(space, s - eraseGap, s);
      }
      elements := elements[..from] + elements[to..];
      result := from;
    }

    method Clear()
      requires Valid()
      modifies this, inlined, allocation
      ensures Valid() && elements == [] && allocation == null && RawIn(old(Data()), 0, old(Data()).Length)
    {
      var s := tag.Size();
      if tag.Allocated() {
        Destroy(allocation, 0, s);
      } else if s != 0 {
        Destroy(inlined, 0, s);
      }
      tag := Tag(0);
      allocation := null;
      elements := [];
    }

    method Reserve(n: nat)
      requires Valid()
      modifies this, inlined, allocation
      ensures Valid() && elements == old(elements) && Data().Length >= n && fresh(Repr() - old(Repr()))
      ensures n <= old(Data().Length) ==> allocation == old(allocation)
    {
      if n > Data().Length {
        EnlargeBy(n - tag.Size());
      }
    }

    // Whichever representations the two have, they exchange their contents, and stay apart.
    method SwapImpl(other: InlinedVector<T>)
      requires Valid() && other.Valid() && Repr() !! other.Repr() && inlined.Length == other.inlined.Length
      modifies Repr(), other.Repr()
      ensures Valid() && other.Valid() && Repr() !! other.Repr()
      ensures elements == old(other.elements) && other.elements == old(elements)
      ensures Repr() + other.Repr() == old(Repr() + other.Repr())
      ensures tag == old(other.tag) && other.tag == old(tag)
    {
      if tag.Allocated() && other.tag.Allocated() {
        tag, other.tag := other.tag, tag;
        allocation, other.allocation := other.allocation, allocation;
        elements, other.elements := other.elements, elements;
        return;
      }
      var a, b := this, other;
      if !tag.Allocated() && !other.tag.Allocated() {
        if tag.Size() < other.tag.Size() {
          a, b := b, a;
        }
        SwapInlined(a, b);
        return;
      }
      if a.tag.Allocated() {
        a, b := b, a;
      }
      SwapMixed(a, b);
    }
  }

  // new_capacity <<= 1 until it is enough.
  method Doubled(capacity: nat, target: nat) returns (newCapacity: nat)
    requires capacity > 0
    ensures newCapacity >= target && newCapacity >= capacity
    ensures newCapacity > capacity ==> newCapacity < 2 * target
  {
    newCapacity := capacity;
    while newCapacity < target
      invariant newCapacity >= capacity && (newCapacity > capacity ==> newCapacity < 2 * target)
      decreases target - newCapacity
    {
      newCapacity := newCapacity * 2;
    }
  }

  // Two vectors, no part of which is shared.
  ghost predicate Apart<T>(a: InlinedVector<T>, b: InlinedVector<T>)
    reads a, b
  {
    a.Repr() !! b.Repr() && a.inlined.Length == b.inlined.Length
  }

  // Both are inlined, and a is no shorter: the common part is swapped, and the rest moved over.
  method SwapInlined<T>(a: InlinedVector<T>, b: InlinedVector<T>)
    requires a.Valid() && b.Valid() && Apart(a, b)
    requires !a.tag.Allocated() && !b.tag.Allocated() && a.tag.Size() >= b.tag.Size()
    modifies a, a.inlined, b, b.inlined
    ensures a.Valid() && b.Valid() && a.allocation == b.allocation == null
    ensures a.elements == old(b.elements) && b.elements == old(a.elements)
    ensures a.tag == old(b.tag) && b.tag == old(a.tag)
  {
    var aSize, bSize := a.tag.Size(), b.tag.Size();
    ghost var rest := a.elements[bSize..];
    assert a.elements == a.elements[..bSize] + rest;
    SwapRanges(a.inlined, b.inlined, bSize, a.elements[..bSize], b.elements);
    MoveToOther(a.inlined, bSize, aSize, b.inlined, bSize, rest);
    Destroy(a.inlined, bSize, aSize);
    PartsMeet(b.inlined, 0, a.elements[..bSize], rest);
    a.tag, b.tag := b.tag, a.tag;
    a.elements, b.elements := b.elements, a.elements;
  }

  method SwapRanges<T>(x: array<Cell<T>>, y: array<Cell<T>>, n: nat, ghost xs: seq<T>, ghost ys: seq<T>)
    requires x != y && |xs| == |ys| == n && HoldsAt(x, 0, xs) && HoldsAt(y, 0, ys)
    modifies x, y
    ensures HoldsAt(x, 0, ys) && HoldsAt(y, 0, xs) && Only(x, 0, n) && Only(y, 0, n)
  {
    for i := 0 to n
      invariant forall j :: 0 <= j < i ==> x[j] == Holding(ys[j]) && y[j] == Holding(xs[j])
      invariant forall j :: i <= j < n ==> x[j] == Holding(xs[j]) && y[j] == Holding(ys[j])
      invariant Only(x, 0, n) && Only(y, 0, n)
    {
      x[i], y[i] := y[i], x[i];
    }
  }

  // a is inlined and b is allocated: the elements of a move over, and a takes the allocation.
  method SwapMixed<T>(a: InlinedVector<T>, b: InlinedVector<T>)
    requires a.Valid() && b.Valid() && Apart(a, b) && !a.tag.Allocated() && b.tag.Allocated()
    modifies a, a.inlined, b, b.inlined
    ensures a.Valid() && b.Valid() && a.allocation == old(b.allocation) && b.allocation == null
    ensures a.elements == old(b.elements) && b.elements == old(a.elements)
    ensures a.tag == old(b.tag) && b.tag == old(a.tag)
  {
    var aSize := a.tag.Size();
    a.tag, b.tag := b.tag, a.tag;
    var bAllocation := b.allocation;
    b.allocation := null;
    MoveToOther(a.inlined, 0, aSize, b.inlined, 0, a.elements);
    Destroy(a.inlined, 0, aSize);
    a.allocation := bAllocation;
    a.elements, b.elements := b.elements, a.elements;
  }
}
