/** Shared vocabulary: optional values, keys read from parsed JSON objects,
    raised exceptions, and the id ranges used to reason about fresh ids. */
module Base {

  /** A value that may be JSON `null` once it is stored in a document. */
  datatype Option<+T> = None | Some(value: T)

  /** The three ways a key of a parsed JSON object can look to `dict.get`:
      the key is absent, the key holds `null`, or the key holds a value. */
  datatype Field<+T> = Missing | Null | Val(value: T)

  /** A Python call either returns a value or raises (here: always a TypeError
      from iterating over `None`). */
  datatype Outcome<+T> = Returned(value: T) | Raised

  /** `obj.get(key, default)`: the default is used only when the key is
      absent; a key holding `null` yields `None`. */
  function GetOr<T>(f: Field<T>, default: T): (r: Option<T>)
    ensures f.Missing? ==> r == Some(default)
    ensures f.Null? <==> r.None?
    ensures f.Val? ==> r == Some(f.value)
  {
    match f
    case Missing => Some(default)
    case Null => None
    case Val(v) => Some(v)
  }

  /** `obj.get(key)` with no default: absent and `null` both read as `None`. */
  function Get<T>(f: Field<T>): (r: Option<T>)
    ensures r.Some? <==> f.Val?
    ensures r.Some? ==> r.value == f.value
  {
    if f.Val? then Some(f.value) else None
  }

  /** The consecutive naturals lo, lo + 1, ..., hi - 1. */
  function Range(lo: nat, hi: nat): (r: seq<nat>)
    requires lo <= hi
    ensures |r| == hi - lo
    ensures forall i :: 0 <= i < |r| ==> r[i] == lo + i
  {
    seq(hi - lo, i requires 0 <= i < hi - lo => lo + i)
  }

  lemma RangeAppend(lo: nat, mid: nat, hi: nat)
    requires lo <= mid <= hi
    ensures Range(lo, mid) + Range(mid, hi) == Range(lo, hi)
  {
    assert forall i :: 0 <= i < hi - lo ==> (Range(lo, mid) + Range(mid, hi))[i] == lo + i;
  }

  /** No value occurs twice. */
  ghost predicate Distinct<T>(s: seq<T>)
  {
    forall i, j :: 0 <= i < j < |s| ==> s[i] != s[j]
  }

  /** Every element is strictly below `bound`. */
  ghost predicate Below(s: seq<nat>, bound: nat)
  {
    forall i :: 0 <= i < |s| ==> s[i] < bound
  }

  /** Appending a block of ids taken from `bound` upwards to distinct ids below
      `bound` keeps every id distinct and below the block's end. */
  lemma AppendFreshRange(s: seq<nat>, bound: nat, hi: nat)
    requires Distinct(s) && Below(s, bound) && bound <= hi
    ensures Distinct(s + Range(bound, hi))
    ensures Below(s + Range(bound, hi), hi)
  {
    var t := s + Range(bound, hi);
    forall i, j | 0 <= i < j < |t|
      ensures t[i] != t[j]
    {
      if j < |s| {
      } else if i < |s| {
        assert t[i] < bound <= t[j];
      } else {
        assert t[i] == bound + (i - |s|) && t[j] == bound + (j - |s|);
      }
    }
  }
}
