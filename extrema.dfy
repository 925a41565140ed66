/** Python's `min` and `max` over a list comprehension `[f(t) for t in s]`, for
    integer keys (tile indices) and real keys (geographic coordinates). An empty
    list makes Python raise, so every function here requires a non-empty
    sequence; callers check for emptiness first and report the error themselves.
    Each result is a bound for every key and is attained by some element. */
module Extrema {

  function Min<T>(s: seq<T>, f: T -> int): (m: int)
    requires |s| > 0
    ensures forall t :: t in s ==> m <= f(t)
    ensures exists t :: t in s && f(t) == m
  {
    if |s| == 1 then f(s[0])
    else
      var rest := Min(s[1..], f);
      if f(s[0]) <= rest then f(s[0]) else rest
  }

  function Max<T>(s: seq<T>, f: T -> int): (m: int)
    requires |s| > 0
    ensures forall t :: t in s ==> f(t) <= m
    ensures exists t :: t in s && f(t) == m
  {
    if |s| == 1 then f(s[0])
    else
      var rest := Max(s[1..], f);
      if f(s[0]) >= rest then f(s[0]) else rest
  }

  function MinReal<T>(s: seq<T>, f: T -> real): (m: real)
    requires |s| > 0
    ensures forall t :: t in s ==> m <= f(t)
    ensures exists t :: t in s && f(t) == m
  {
    if |s| == 1 then f(s[0])
    else
      var rest := MinReal(s[1..], f);
      if f(s[0]) <= rest then f(s[0]) else rest
  }

  function MaxReal<T>(s: seq<T>, f: T -> real): (m: real)
    requires |s| > 0
    ensures forall t :: t in s ==> f(t) <= m
    ensures exists t :: t in s && f(t) == m
  {
    if |s| == 1 then f(s[0])
    else
      var rest := MaxReal(s[1..], f);
      if f(s[0]) >= rest then f(s[0]) else rest
  }
}
