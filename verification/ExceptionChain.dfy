/** The chain of exceptions behind a failure; links may form cycles. */
module ExceptionChain {

  class Failure {
    var cause: Failure?
    var context: Failure?

    constructor (cause: Failure?, context: Failure?)
      ensures this.cause == cause && this.context == context
    {
      this.cause, this.context := cause, context;
    }

    /** `cur.__cause__ or cur.__context__`. */
    function Next(): Failure?
      reads this
    {
      if cause != null then cause else context
    }
  }

  /** A cause comes before a context, and a context counts only without a cause. */
  lemma CauseComesFirst(e: Failure)
    ensures e.cause != null ==> e.Next() == e.cause
    ensures e.cause == null ==> e.Next() == e.context
  {
  }

  ghost predicate Linked(path: seq<Failure>)
    reads path
  {
    forall i :: 0 <= i < |path| - 1 ==> path[i].Next() == path[i + 1]
  }

  ghost predicate Simple(path: seq<Failure>) {
    forall i, j :: 0 <= i < j < |path| ==> path[i] != path[j]
  }

  /** A simple path from `start` that cannot be extended: what follows is absent or already listed. */
  ghost predicate MaximalPath(start: Failure?, path: seq<Failure>)
    reads path
  {
    if start == null then path == []
    else
      && path != [] && path[0] == start
      && Linked(path) && Simple(path)
      && var next := path[|path| - 1].Next();
         next == null || next in path
  }

  /** No link leads out of the finite set `all`. */
  ghost predicate Closed(all: set<Failure>)
    reads all
  {
    forall e :: e in all && e.Next() != null ==> e.Next() in all
  }

  /** `_walk_exception_chain`: it ends for every finite graph of exceptions, cycles included. */
  method Walk(exc: Failure?, ghost all: set<Failure>) returns (out: seq<Failure>)
    requires Closed(all) && (exc != null ==> exc in all)
    ensures MaximalPath(exc, out)
    ensures forall i :: 0 <= i < |out| - 1 ==>
      out[i + 1] == out[i].cause || (out[i].cause == null && out[i + 1] == out[i].context)
    ensures forall e :: e in out ==> e in all
  {
    out := [];
    var seen: set<Failure> := {};
    var cur := exc;
    while cur != null && cur !in seen
      invariant forall e :: e in seen <==> e in out
      invariant seen <= all && (cur != null ==> cur in all)
      invariant Linked(out) && Simple(out)
      invariant if out == [] then cur == exc else out[0] == exc && out[|out| - 1].Next() == cur
      decreases all - seen
    {
      seen := seen + {cur};
      out := out + [cur];
      cur := cur.Next();
    }
  }

  lemma {:induction false} PathsAgree(start: Failure?, p: seq<Failure>, q: seq<Failure>, k: nat)
    requires MaximalPath(start, p) && MaximalPath(start, q) && k < |p| && k < |q|
    ensures p[k] == q[k]
  {
    if k > 0 {
      PathsAgree(start, p, q, k - 1);
      assert p[k - 1].Next() == p[k] && q[k - 1].Next() == q[k];
    }
  }

  lemma NotListedBefore(path: seq<Failure>, k: nat)
    requires Simple(path) && k < |path|
    ensures path[k] !in path[..k]
  {
  }

  lemma NoLonger(start: Failure?, p: seq<Failure>, q: seq<Failure>)
    requires MaximalPath(start, p) && MaximalPath(start, q)
    ensures |q| <= |p|
  {
    var n := |p|;
    if n < |q| {
      forall k | 0 <= k < n ensures p[k] == q[k] {
        PathsAgree(start, p, q, k);
      }
      NotListedBefore(q, n);
    }
  }

  /** There is one such path only, so the walk's contract determines its result. */
  lemma MaximalPathIsUnique(start: Failure?, p: seq<Failure>, q: seq<Failure>)
    requires MaximalPath(start, p) && MaximalPath(start, q)
    ensures p == q
  {
    NoLonger(start, p, q);
    NoLonger(start, q, p);
    forall k | 0 <= k < |p| ensures p[k] == q[k] {
      PathsAgree(start, p, q, k);
    }
  }

  /** The path lists the smallest set of exceptions that holds the first and is closed under links. */
  lemma {:induction false} PathIsClosure(start: Failure, path: seq<Failure>, all: set<Failure>, k: nat)
    requires MaximalPath(start, path) && start in all && Closed(all) && k < |path|
    ensures path[k] in all
    ensures path[k].Next() == null || path[k].Next() in path
  {
    if k > 0 {
      PathIsClosure(start, path, all, k - 1);
      assert path[k - 1].Next() == path[k];
    }
    if k < |path| - 1 {
      assert path[k].Next() == path[k + 1];
    }
  }
}
