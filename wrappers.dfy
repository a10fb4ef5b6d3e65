/** Optional values: the model's stand-in for Python's `None` results and raised errors. */
module Wrappers {

  datatype Option<+T> = None | Some(value: T)

  /**
   * A list comprehension `[f(x) for x in xs]` whose `f` may raise: the
   * results in order, or `None` as soon as one element fails.
   */
  function MapOption<T, U>(f: T -> Option<U>, xs: seq<T>): (r: Option<seq<U>>)
    ensures r.Some? <==> forall i | 0 <= i < |xs| :: f(xs[i]).Some?
    ensures r.Some? ==> |r.value| == |xs| && forall i | 0 <= i < |xs| :: f(xs[i]) == Some(r.value[i])
  {
    if |xs| == 0 then Some([])
    else
      var head, tail := f(xs[0]), MapOption(f, xs[1..]);
      assert forall i | 1 <= i < |xs| :: xs[i] == xs[1..][i - 1];
      if head.Some? && tail.Some? then
        var r := [head.value] + tail.value;
        assert forall i | 1 <= i < |xs| :: r[i] == tail.value[i - 1];
        Some(r)
      else None
  }

  /** When every element maps to a value, the comprehension yields exactly those values. */
  lemma MapOptionAll<T, U>(f: T -> Option<U>, xs: seq<T>, ys: seq<U>)
    requires |xs| == |ys| && forall i | 0 <= i < |xs| :: f(xs[i]) == Some(ys[i])
    ensures MapOption(f, xs) == Some(ys)
  {
    var r := MapOption(f, xs);
    assert r.Some?;
    assert r.value == ys;
  }
}
