/** Go slices that start at the beginning of their backing array, and Go's two uses of append. */
module Slices {

  /** A slice header: its capacity is `buf.Length`. */
  datatype Slice<T> = Slice(buf: array<T>, len: nat)

  ghost predicate Fits<T>(s: Slice<T>) {
    s.len <= s.buf.Length
  }

  ghost function View<T>(s: Slice<T>): seq<T>
    requires Fits(s)
    reads s.buf
  {
    s.buf[..s.len]
  }

  /**
   `append(s, x)`: writes into spare capacity when there is some, and otherwise moves to a
   larger array with room for `spare` more elements.
   */
  method Append<T(0)>(s: Slice<T>, x: T, spare: nat) returns (r: Slice<T>)
    requires Fits(s)
    modifies s.buf
    ensures Fits(r) && View(r) == old(View(s)) + [x]
    ensures s.len < s.buf.Length ==> r.buf == s.buf
    ensures s.len == s.buf.Length ==> fresh(r.buf)
    ensures forall k :: 0 <= k < s.buf.Length && k != s.len ==> s.buf[k] == old(s.buf[k])
  {
    if s.len < s.buf.Length {
      s.buf[s.len] := x;
      r := Slice(s.buf, s.len + 1);
    } else {
      var larger := new T[s.len + 1 + spare];
      forall k | 0 <= k < s.len {
        larger[k] := s.buf[k];
      }
      larger[s.len] := x;
      r := Slice(larger, s.len + 1);
    }
  }

  /** `append(s[:i], s[i+1:]...)`: shifts the tail left inside the same array. */
  method RemoveAt<T>(s: Slice<T>, i: nat) returns (r: Slice<T>)
    requires Fits(s) && i < s.len
    modifies s.buf
    ensures r == Slice(s.buf, s.len - 1)
    ensures View(r) == old(View(s))[..i] + old(View(s))[i + 1..]
    ensures forall k :: r.len <= k < s.buf.Length ==> s.buf[k] == old(s.buf[k])
  {
    for k := i to s.len - 1
      invariant forall m :: 0 <= m < i || k <= m < s.buf.Length ==> s.buf[m] == old(s.buf[m])
      invariant forall m :: i <= m < k ==> s.buf[m] == old(s.buf[m + 1])
    {
      s.buf[k] := s.buf[k + 1];
    }
    r := Slice(s.buf, s.len - 1);
  }
}
