/** Go slices on the heap: a window on a backing array that others may share. */
module GoSlices {

  datatype Slice<T> = NilSlice | Slice(arr: array<T>, off: nat, len: nat, cap: nat) {
    predicate Valid() {
      Slice? ==> len <= cap && off + cap <= arr.Length
    }

    function Len(): nat { if NilSlice? then 0 else len }

    function Elems(): seq<T>
      requires Valid()
      reads if Slice? then {arr} else {}
    {
      if NilSlice? then [] else arr[off..off + len]
    }

    /** append(s, n more...) writes into the backing array instead of copying. */
    predicate HasRoom(n: nat) {
      Slice? && n > 0 && len + n <= cap
    }

    /** slices.Clip. */
    function Clip(): (r: Slice<T>)
      requires Valid()
      ensures r.Valid() && forall n: nat :: !r.HasRoom(n)
      ensures r.Len() == Len() && (r.Slice? <==> Slice?) && (Slice? ==> r.arr == arr && r.off == off)
    {
      if NilSlice? then this else this.(cap := len)
    }
  }

  /** append(s, xs...). With room it writes behind s in place, where another slice over the same
      array may be looking; without, it copies to a new array of some larger capacity. */
  method Append<T(0)>(s: Slice<T>, xs: seq<T>) returns (r: Slice<T>)
    requires s.Valid()
    modifies if s.HasRoom(|xs|) then {s.arr} else {}
    ensures r.Valid() && r.Elems() == old(s.Elems()) + xs
    ensures xs == [] ==> r == s
    ensures s.HasRoom(|xs|) ==> r == s.(len := s.len + |xs|)
    ensures s.HasRoom(|xs|) ==> forall i | 0 <= i < s.arr.Length && !(s.off + s.len <= i < s.off + s.len + |xs|) ::
                                  s.arr[i] == old(s.arr[i])
    ensures xs != [] && !s.HasRoom(|xs|) ==> r.Slice? && fresh(r.arr)
  {
    if xs == [] {
      return s;
    }
    if s.HasRoom(|xs|) {
      ghost var before := s.Elems();
      forall i | 0 <= i < |xs| {
        s.arr[s.off + s.len + i] := xs[i];
      }
      r := s.(len := s.len + |xs|);
      assert r.Elems() == before + xs;
      return;
    }
    var elems := s.Elems() + xs;
    var newCap: nat :| newCap >= |elems|;
    var arr := new T[newCap];
    forall i | 0 <= i < |elems| {
      arr[i] := elems[i];
    }
    r := Slice(arr, 0, |elems|, newCap);
  }

  /** make([]T, 0, n). */
  method MakeEmpty<T(0)>(n: nat) returns (r: Slice<T>)
    ensures r.Valid() && r.Slice? && fresh(r.arr) && r.Elems() == [] && r.cap == n
  {
    var arr := new T[n];
    r := Slice(arr, 0, 0, n);
  }
}
