/**
  The plain values a `serialize` method returns: nested dicts, lists, strings and
  integers, ready to be sent as JSON.
 */
module Json {

  import opened Wrappers

  /**
    A Python dict keeps its keys in insertion order, so an object is the sequence of
    its (key, value) pairs in the order the dict literal writes them.
   */
  datatype Val =
    | Obj(fields: seq<(string, Val)>)
    | Arr(items: seq<Val>)
    | Str(s: string)
    | Int(n: int)

  /** The keys of an object, in order; a value that is not an object has none. */
  function Keys(v: Val): seq<string>
  {
    match v
    case Obj(fs) => seq(|fs|, i requires 0 <= i < |fs| => fs[i].0)
    case _ => []
  }

  /** Key `k` occurs in `v` at any depth: in `v` itself or in any nested object or list. */
  predicate HasKey(v: Val, k: string)
  {
    match v
    case Obj(fs) => exists i :: 0 <= i < |fs| && (fs[i].0 == k || HasKey(fs[i].1, k))
    case Arr(xs) => exists i :: 0 <= i < |xs| && HasKey(xs[i], k)
    case _ => false
  }

  /** A list none of whose elements holds `k` does not hold `k`. */
  lemma ArrLacksKey(xs: seq<Val>, k: string)
    requires forall i :: 0 <= i < |xs| ==> !HasKey(xs[i], k)
    ensures !HasKey(Arr(xs), k)
  {
  }

  /**
    Decodes every element of a list with `decode`; the whole list fails to decode
    as soon as one element does.
   */
  function DecodeAll<T>(vs: seq<Val>, decode: Val -> Option<T>): Option<seq<T>>
  {
    if vs == [] then Some([])
    else
      match (decode(vs[0]), DecodeAll(vs[1..], decode))
      case (Some(x), Some(xs)) => Some([x] + xs)
      case _ => None
  }

  /**
    If `decode` maps the i-th value to the i-th element of `ys` for every i, the
    whole list decodes to `ys`.
   */
  lemma {:induction false} DecodeAllInverse<T>(vs: seq<Val>, decode: Val -> Option<T>, ys: seq<T>)
    requires |vs| == |ys|
    requires forall i :: 0 <= i < |vs| ==> decode(vs[i]) == Some(ys[i])
    ensures DecodeAll(vs, decode) == Some(ys)
  {
    if vs != [] {
      DecodeAllInverse(vs[1..], decode, ys[1..]);
      assert decode(vs[0]) == Some(ys[0]);
      assert [ys[0]] + ys[1..] == ys;
    }
  }
}
