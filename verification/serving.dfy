/** A run of submissions and the downstream log it produces. Each submission is handled by
    a pure function of its own inputs: that no state carries over between requests is an
    assumption of this model, not a consequence proved in it. */
module Serving {
  import opened Payloads
  import opened Replies
  import opened Downstream
  import opened Handlers

  /** One submission: what reading its body gave and how its downstream post would end. */
  datatype Exchange = Exchange(read: ReadResult, outcome: Outcome)

  /** The submission gets as far as a downstream client call. */
  predicate Reaches(x: Exchange) {
    x.read.Read? && Routed(x.read.payload.action) && !x.outcome.RequestFailed?
  }

  /** The post a document is meant to travel in: to its own service, with the JSON content
      type on every document but the credentials. */
  function Expected(b: Body): Post {
    Post(Address(b), if b.AuthBody? then "" else JsonContentType, b)
  }

  /** The posts handed to the HTTP client over a run, in arrival order. */
  function Log(xs: seq<Exchange>): (log: seq<Post>)
    ensures |log| <= |xs|
    ensures forall i :: 0 <= i < |log| ==> log[i].url == Address(log[i].body)
  {
    if xs == [] then []
    else
      var last := xs[|xs| - 1];
      Log(xs[..|xs| - 1]) + HandleSubmission(last.read, last.outcome).calls
  }

  /** Reference log: the selected sub-payload of every submission that gets that far, each
      in its expected post, in arrival order. */
  function Forwarded(xs: seq<Exchange>): seq<Post> {
    if xs == [] then []
    else
      var last := xs[|xs| - 1];
      Forwarded(xs[..|xs| - 1]) + (if Reaches(last) then [Expected(Selected(last.read.payload))] else [])
  }

  /** The number of submissions in a run that reach a downstream client call. */
  function Reaching(xs: seq<Exchange>): nat {
    if xs == [] then 0
    else Reaching(xs[..|xs| - 1]) + (if Reaches(xs[|xs| - 1]) then 1 else 0)
  }

  /** The log holds exactly the selected sub-payloads of the submissions that get that far,
      each once, in order, to its own URL with its own headers, and nothing else. */
  lemma {:induction false} LogIsForwardedSubmissions(xs: seq<Exchange>)
    ensures Log(xs) == Forwarded(xs)
  {
    if xs != [] {
      var last := xs[|xs| - 1];
      LogIsForwardedSubmissions(xs[..|xs| - 1]);
      var h := HandleSubmission(last.read, last.outcome);
      if Reaches(last) {
        assert |h.calls| == 1 && h.calls[0] in h.calls;
        assert h.calls == [Expected(Selected(last.read.payload))];
      } else {
        assert h.calls == [];
      }
    }
  }

  /** Exactly one client call per submission that gets that far, and none for the others. */
  lemma {:induction false} LogCountsReachingSubmissions(xs: seq<Exchange>)
    ensures |Log(xs)| == Reaching(xs)
  {
    if xs != [] {
      LogCountsReachingSubmissions(xs[..|xs| - 1]);
    }
  }

  /** Submissions are not deduplicated: the same envelope sent n times is posted n times. */
  lemma {:induction false} RepeatedSubmissionPostsEachTime(x: Exchange, n: nat)
    requires Reaches(x)
    ensures Log(seq(n, _ => x)) == seq(n, _ => Expected(Selected(x.read.payload)))
  {
    var e := Expected(Selected(x.read.payload));
    if n > 0 {
      assert seq(n, _ => x)[..n - 1] == seq(n - 1, _ => x);
      RepeatedSubmissionPostsEachTime(x, n - 1);
      assert HandleSubmission(x.read, x.outcome).calls[0] in HandleSubmission(x.read, x.outcome).calls;
      assert seq(n, _ => e) == seq(n - 1, _ => e) + [e];
    }
  }
}
