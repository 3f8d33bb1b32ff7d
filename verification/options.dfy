/** Optional values and the order-preserving filter-map that Rust's
    `Iterator::filter_map(..).collect()` performs. */
module Options {

  datatype Option<+T> = None | Some(value: T) {

    /** The wrapped value, or `default` when there is none (Rust's `unwrap_or`). */
    function GetOr(default: T): T {
      match this
      case Some(v) => v
      case None => default
    }

    /** Zero or one element, in the shape `filter_map` appends. */
    function ToSeq(): (s: seq<T>)
      ensures |s| <= 1
      ensures |s| == 1 <==> Some?
    {
      match this
      case Some(v) => [v]
      case None => []
    }
  }

  /** Keeps `f(x).value` for every `x` of `xs` that `f` maps to `Some`, in order. */
  function FilterMap<A, B>(f: A -> Option<B>, xs: seq<A>): (r: seq<B>)
    ensures |r| <= |xs|
  {
    if |xs| == 0 then []
    else f(xs[0]).ToSeq() + FilterMap(f, xs[1..])
  }
}
