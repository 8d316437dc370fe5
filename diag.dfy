/** Results and diagnostics shared by every stage of the pipeline.

    A compile-time error of the macros is a list of located messages: the
    first entry is the primary error and every later entry is a note that
    was combined into it (error combination is list concatenation). */
module Diag {

  datatype Option<+T> = None | Some(value: T) {
    function GetOr(default: T): T {
      match this
      case Some(v) => v
      case None => default
    }
  }

  /** One located message: the span is an abstract source position. */
  datatype Note = Note(span: nat, message: string)

  type Diagnostic = seq<Note>

  datatype Result<+T> = Ok(value: T) | Err(error: Diagnostic) {
    predicate IsFailure() {
      Err?
    }

    function PropagateFailure<U>(): Result<U>
      requires Err?
    {
      Err(error)
    }

    function Extract(): T
      requires Ok?
    {
      value
    }
  }

  /** A diagnostic with a single message. */
  function Error(span: nat, message: string): (d: Diagnostic)
    ensures |d| == 1 && d[0].span == span && d[0].message == message
  {
    [Note(span, message)]
  }

  /** `collect::<Result<Vec<_>, _>>()`: every value when all succeed,
      otherwise the error of the first failure. */
  function CollectResults<T>(rs: seq<Result<T>>): (r: Result<seq<T>>)
    ensures r.Ok? <==> forall i :: 0 <= i < |rs| ==> rs[i].Ok?
    ensures r.Ok? ==> |r.value| == |rs| && forall i :: 0 <= i < |rs| ==> rs[i] == Ok(r.value[i])
    ensures r.Err? ==> exists i :: (
              && 0 <= i < |rs| && rs[i] == Err(r.error)
              && forall j :: 0 <= j < i ==> rs[j].Ok?)
  {
    if rs == [] then Ok([])
    else
      var first :- rs[0];
      var rest :- CollectResults(rs[1..]);
      assert forall i :: 1 <= i < |rs| ==> rs[i] == rs[1..][i - 1];
      Ok([first] + rest)
  }

  /** `flatten`: the lists one after another. */
  function Flatten<T>(xss: seq<seq<T>>): seq<T> {
    if xss == [] then [] else xss[0] + Flatten(xss[1..])
  }

  /** `iter().map(f)`. */
  function MapResults<M, T>(ms: seq<M>, f: M -> Result<T>): (rs: seq<Result<T>>)
    ensures |rs| == |ms| && forall i :: 0 <= i < |ms| ==> rs[i] == f(ms[i])
  {
    seq(|ms|, i requires 0 <= i < |ms| => f(ms[i]))
  }

  /** The properties of `CollectResults`, read through the mapped function. */
  lemma CollectMapped<M, T>(ms: seq<M>, f: M -> Result<T>)
    ensures var r := CollectResults(MapResults(ms, f));
            && (r.Ok? <==> forall i :: 0 <= i < |ms| ==> f(ms[i]).Ok?)
            && (r.Ok? ==> |r.value| == |ms| && forall i :: 0 <= i < |ms| ==> f(ms[i]) == Ok(r.value[i]))
            && (r.Err? ==> exists i :: (
                  && 0 <= i < |ms| && f(ms[i]) == Err(r.error)
                  && forall j :: 0 <= j < i ==> f(ms[j]).Ok?))
  {
    var rs := MapResults(ms, f);
    var r := CollectResults(rs);
    if r.Err? {
      var i :| 0 <= i < |rs| && rs[i] == Err(r.error) && forall j :: 0 <= j < i ==> rs[j].Ok?;
      assert f(ms[i]) == Err(r.error);
    }
  }
}
