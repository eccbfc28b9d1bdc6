/** Optional values (TypeScript `T | null` / `T | undefined`) and thrown-or-returned results. */
module Wrappers {

  datatype Option<+T> = None | Some(value: T)

  datatype Result<+R, +E> = Success(value: R) | Failure(error: E)

  /** The fallback operator: the value when there is one, the fallback otherwise. */
  function Coalesce<T>(o: Option<T>, fallback: T): T
  {
    match o
    case Some(v) => v
    case None => fallback
  }

  /** A single mapped element as a one-element part. */
  function Single<T, E>(r: Result<T, E>): Result<seq<T>, E>
  {
    match r
    case Success(v) => Success([v])
    case Failure(e) => Failure(e)
  }

  /** Two parts of a mapped list evaluated in order: the first failure wins, otherwise the parts are joined. */
  function Join<T, E>(a: Result<seq<T>, E>, b: Result<seq<T>, E>): Result<seq<T>, E>
  {
    if a.Failure? then a else if b.Failure? then b else Success(a.value + b.value)
  }

  lemma JoinAssociative<T, E>(x: Result<seq<T>, E>, y: Result<seq<T>, E>, z: Result<seq<T>, E>)
    ensures Join(x, Join(y, z)) == Join(Join(x, y), z)
  {
    if x.Success? && y.Success? && z.Success? {
      assert x.value + (y.value + z.value) == (x.value + y.value) + z.value;
    }
  }
  /** The empty success is a unit of `Join` on both sides. */
  lemma JoinUnit<T, E>(x: Result<seq<T>, E>)
    ensures Join(Success([]), x) == x
    ensures Join(x, Success([])) == x
  {
    if x.Success? {
      assert [] + x.value == x.value + [] == x.value;
    }
  }

  /** Joining an accumulated success with a part and a rest: a failed part is the result, a successful part is accumulated. */
  lemma JoinStep<T, E>(a: seq<T>, p: Result<seq<T>, E>, q: Result<seq<T>, E>)
    ensures p.Failure? ==> Join(Success(a), Join(p, q)) == p
    ensures p.Success? ==> Join(Success(a), Join(p, q)) == Join(Success(a + p.value), q)
  {
    JoinAssociative(Success(a), p, q);
  }

  /** Result `j` is the first failure of `rs`. */
  predicate FirstFailure<T, E>(rs: seq<Result<T, E>>, j: int)
  {
    0 <= j < |rs| && rs[j].Failure? && forall i :: 0 <= i < j ==> rs[i].Success?
  }

  /** Results collected in order, as a `map` whose callback may throw: every value, or the first failure. */
  function Collect<T, E>(rs: seq<Result<T, E>>): (r: Result<seq<T>, E>)
    ensures r.Success? <==> forall i :: 0 <= i < |rs| ==> rs[i].Success?
    ensures r.Success? ==> |r.value| == |rs| && forall i :: 0 <= i < |rs| ==> rs[i] == Success(r.value[i])
    ensures r.Failure? ==> exists j :: FirstFailure(rs, j) && rs[j] == Failure(r.error)
  {
    if rs == [] then Success([])
    else
      var rest := Collect(rs[1..]);
      assert forall i :: 0 < i < |rs| ==> rs[i] == rs[1..][i - 1];
      if rs[0].Failure? then
        assert FirstFailure(rs, 0);
        Failure(rs[0].error)
      else if rest.Failure? then
        ghost var j :| FirstFailure(rs[1..], j) && rs[1..][j] == Failure(rest.error);
        assert FirstFailure(rs, j + 1);
        rest
      else
        Success([rs[0].value] + rest.value)
  }

}
