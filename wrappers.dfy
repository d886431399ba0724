/** Option and Result, and the first-match search that every ordered fallback table of the
    importer goes through (date tags, date layouts, video streams). */
module Wrappers {

  datatype Option<+T> = None | Some(value: T) {
    function GetOr(default: T): T {
      match this
      case Some(v) => v
      case None => default
    }
  }

  /** A Go `(value, error)` pair: `Err` carries the error text. */
  datatype Result<+T> = Ok(value: T) | Err(error: string)

  /** The result of the first element of `xs` for which `f` succeeds, trying them in order. */
  function FirstSome<A, B>(xs: seq<A>, f: A -> Option<B>): (r: Option<B>)
    ensures r.None? <==> forall i :: 0 <= i < |xs| ==> f(xs[i]).None?
    ensures r.Some? ==>
      exists i :: 0 <= i < |xs| && f(xs[i]) == r && forall j :: 0 <= j < i ==> f(xs[j]).None?
    decreases |xs|
  {
    if |xs| == 0 then None
    else if f(xs[0]).Some? then f(xs[0])
    else
      var rest := FirstSome(xs[1..], f);
      assert forall i :: 1 <= i < |xs| ==> xs[1..][i - 1] == xs[i];
      rest
  }

  /** The first success decides: whatever comes after it is never consulted. */
  lemma FirstSomeAt<A, B>(xs: seq<A>, f: A -> Option<B>, i: nat)
    requires i < |xs| && f(xs[i]).Some?
    requires forall j :: 0 <= j < i ==> f(xs[j]).None?
    ensures FirstSome(xs, f) == f(xs[i])
  {
  }

  /** Two searches that agree up to and including the first success of one of them agree. */
  lemma {:induction false} FirstSomeAgree<A, B>(xs: seq<A>, f: A -> Option<B>, g: A -> Option<B>, i: nat)
    requires i < |xs| && f(xs[i]).Some?
    requires forall j :: 0 <= j <= i ==> f(xs[j]) == g(xs[j])
    ensures FirstSome(xs, f) == FirstSome(xs, g)
  {
    if f(xs[0]).None? {
      assert forall j :: 0 <= j <= i - 1 ==> xs[1..][j] == xs[j + 1];
      FirstSomeAgree(xs[1..], f, g, i - 1);
    }
  }
}
