/** Non-negative extents of grids and shapes. */
module Sizes {

  datatype Size = Size(width: nat, height: nat)

  function New(width: nat, height: nat): Size
  {
    Size(width, height)
  }

  /** The zero extent. */
  function Empty(): Size
  {
    Size(0, 0)
  }

  function Add(s: Size, t: Size): Size
  {
    Size(s.width + t.width, s.height + t.height)
  }

  function AddWidth(s: Size, w: nat): Size
  {
    Size(s.width + w, s.height)
  }

  function AddHeight(s: Size, h: nat): Size
  {
    Size(s.width, s.height + h)
  }

  predicate EqualTo(s: Size, t: Size)
  {
    s.width == t.width && s.height == t.height
  }

  /** Empty means BOTH extents are zero: a 0x5 size is not empty. */
  predicate IsEmpty(s: Size)
  {
    s.width == 0 && s.height == 0
  }

  lemma AddIsCommutativeWithIdentity(s: Size, t: Size)
    ensures Add(s, t) == Add(t, s)
    ensures Add(s, Empty()) == s && Add(Empty(), s) == s
    ensures Add(s, t).width == s.width + t.width && Add(s, t).height == s.height + t.height
  {
  }

  lemma AddOneExtent(s: Size, w: nat, h: nat)
    ensures AddWidth(s, w).height == s.height && AddWidth(s, w).width == s.width + w
    ensures AddHeight(s, h).width == s.width && AddHeight(s, h).height == s.height + h
    ensures AddHeight(AddWidth(s, w), h) == Add(s, New(w, h))
  {
  }

  lemma EqualToIsEquality(s: Size, t: Size)
    ensures EqualTo(s, t) <==> s == t
    ensures EqualTo(s, s)
    ensures EqualTo(s, t) <==> EqualTo(t, s)
  {
  }

  lemma IsEmptyIffBothZero(s: Size)
    ensures IsEmpty(s) <==> s.width == 0 && s.height == 0
    ensures IsEmpty(Empty())
    ensures !IsEmpty(New(0, 5))
  {
  }
}
