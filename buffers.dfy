/** The heap buffers tosh enlarges with realloc while it fills them, and the
    NULL-terminated vectors of strings it builds in them. */
module Buffers {

  /** One slot of a NULL-terminated pointer vector. */
  datatype Ptr<T> = Null | Ptr(value: T)

  /** The strings held by a run of non-NULL slots. */
  function Values<T>(ps: seq<Ptr<T>>): (vs: seq<T>)
    requires forall k :: 0 <= k < |ps| ==> ps[k].Ptr?
    ensures |vs| == |ps|
    ensures forall k :: 0 <= k < |ps| ==> vs[k] == ps[k].value
  {
    seq(|ps|, k requires 0 <= k < |ps| => ps[k].value)
  }

  /** The first |vs| slots of `a` point to the values `vs`, in order. */
  ghost predicate Stores<T>(a: array<Ptr<T>>, vs: seq<T>)
    reads a
  {
    |vs| <= a.Length && forall k :: 0 <= k < |vs| ==> a[k] == Ptr(vs[k])
  }

  /** Slots that store `vs` are non-NULL and hold exactly `vs`. */
  lemma StoredValues<T>(a: array<Ptr<T>>, vs: seq<T>)
    requires Stores(a, vs)
    ensures forall k :: 0 <= k < |vs| ==> a[k].Ptr?
    ensures Values(a[..|vs|]) == vs
  {
  }

  /** Stores `x` in slot k of a pointer vector and, when that fills the
      vector, grows it by `inc` slots, so a free slot always remains for the
      next pointer or the closing NULL. The ghost `vs` names the values the
      first k slots already point to. */
  method Append<T>(buf: array<Ptr<T>>, k: nat, x: T, inc: nat, ghost vs: seq<T>)
    returns (buf': array<Ptr<T>>, k': nat)
    requires k == |vs| < buf.Length && inc > 0
    requires Stores(buf, vs)
    modifies buf
    ensures buf' == buf || fresh(buf')
    ensures k' == k + 1 && k' < buf'.Length
    ensures forall m :: 0 <= m < k ==> buf'[m] == old(buf[m])
    ensures buf'[k] == Ptr(x)
    ensures Stores(buf', vs + [x])
  {
    buf[k] := Ptr(x);
    k' := k + 1;
    buf' := buf;
    if k' >= buf.Length {
      buf' := Realloc(buf, buf.Length + inc);
    }
  }

  /** realloc: a fresh, larger buffer that starts with the whole old one. */
  method Realloc<T(0)>(buf: array<T>, size: nat) returns (grown: array<T>)
    requires buf.Length <= size
    ensures fresh(grown) && grown.Length == size
    ensures grown[..buf.Length] == buf[..]
  {
    grown := new T[size];
    var k := 0;
    while k < buf.Length
      invariant 0 <= k <= buf.Length
      invariant grown[..k] == buf[..k]
    {
      grown[k] := buf[k];
      k := k + 1;
    }
  }
}
