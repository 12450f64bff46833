/** The matcher of index.js: `findMatching` drains the revision stream of one
    content type into a buffer and, when the stream ends, `findMessage` picks the
    first buffered message with the target's author, repository and branch. */
module Matching {
  import opened Records

  /** One stream element: `key` is the lineage path (its last entry is the
      lineage root, used only for display), `value` the message itself. */
  datatype Element = Element(key: seq<string>, value: Msg)

  /** How a stream terminates. */
  datatype End = Done | Failed(reason: string)

  /** A finite stream of elements followed by its termination. */
  datatype Stream = Stream(elements: seq<Element>, end: End)

  /** What `findMatching` passes to its callback: an error, or the (possibly absent) match. */
  datatype Found = StreamError(reason: string) | Completed(message: Option<Msg>)

  /** Why a candidate was accepted or rejected: the debug line `findMessage` writes. */
  datatype Verdict = Accept | WrongAuthor | WrongRepo | WrongRepoBranch

  // ---------------------------------------------------------------------------
  // Collection

  /** The messages carried by a sequence of stream elements, in order. */
  function Values(es: seq<Element>): seq<Msg>
  {
    if es == [] then [] else [es[0].value] + Values(es[1..])
  }

  lemma {:induction false} ValuesAt(es: seq<Element>, i: nat)
    requires i < |es|
    ensures |Values(es)| == |es| && Values(es)[i] == es[i].value
  {
    if i > 0 {
      ValuesAt(es[1..], i - 1);
    } else if |es| > 1 {
      ValuesAt(es[1..], 0);
    }
  }

  lemma {:induction false} ValuesSnoc(es: seq<Element>, e: Element)
    ensures Values(es + [e]) == Values(es) + [e.value]
  {
    if es == [] {
      assert es + [e] == [e];
    } else {
      assert (es + [e])[1..] == es[1..] + [e];
      ValuesSnoc(es[1..], e);
    }
  }

  /** The drain callback: push every element's message onto `messages`,
      in arrival order and without filtering. */
  method Drain(es: seq<Element>) returns (messages: seq<Msg>)
    ensures messages == Values(es)
    ensures |messages| == |es|
    ensures forall i :: 0 <= i < |es| ==> messages[i] == es[i].value
  {
    messages := [];
    var i := 0;
    while i < |es|
      invariant 0 <= i <= |es|
      invariant messages == Values(es[..i])
    {
      assert es[..i + 1] == es[..i] + [es[i]];
      ValuesSnoc(es[..i], es[i]);
      messages := messages + [es[i].value];
      i := i + 1;
    }
    assert es[..i] == es;
    if |es| > 0 {
      ValuesAt(es, 0);
    }
    forall k | 0 <= k < |es|
      ensures messages[k] == es[k].value
    {
      ValuesAt(es, k);
    }
  }

  // ---------------------------------------------------------------------------
  // Matching

  /** All three equalities hold; the order in which they are tested plays no part here. */
  predicate Matches(m: Msg, t: SearchKv)
  {
    && m.value.author == t.author
    && Field(m.value.content, "repository") == Some(t.repository)
    && Field(m.value.content, "repositoryBranch") == Some(t.repositoryBranch)
  }

  /** The `Array.find` predicate with its early returns: author, then repository,
      then branch; the first failing check is the reason given. */
  function Check(m: Msg, t: SearchKv): (v: Verdict)
    ensures v == Accept <==> Matches(m, t)
    ensures v == WrongAuthor <==> m.value.author != t.author
    ensures v == WrongRepo <==>
      m.value.author == t.author && Field(m.value.content, "repository") != Some(t.repository)
    ensures v == WrongRepoBranch <==>
      && m.value.author == t.author
      && Field(m.value.content, "repository") == Some(t.repository)
      && Field(m.value.content, "repositoryBranch") != Some(t.repositoryBranch)
  {
    if m.value.author != t.author then WrongAuthor
    else if Field(m.value.content, "repository") != Some(t.repository) then WrongRepo
    else if Field(m.value.content, "repositoryBranch") != Some(t.repositoryBranch) then WrongRepoBranch
    else Accept
  }

  /** The index `Array.find` stops at: the first candidate the predicate accepts. */
  function FirstMatch(kvs: seq<Msg>, t: SearchKv): (r: Option<nat>)
    ensures r.Some? ==> r.value < |kvs| && Matches(kvs[r.value], t)
    ensures r.Some? ==> forall j :: 0 <= j < r.value ==> !Matches(kvs[j], t)
    ensures r.None? <==> forall j :: 0 <= j < |kvs| ==> !Matches(kvs[j], t)
  {
    if kvs == [] then None
    else if Check(kvs[0], t) == Accept then Some(0)
    else match FirstMatch(kvs[1..], t)
      case None => None
      case Some(i) => Some(i + 1)
  }

  /** `findMessage(kvs, kv)`: the first buffered message matching the target, or `undefined`. */
  function FindMessage(kvs: seq<Msg>, t: SearchKv): (r: Option<Msg>)
    ensures r.Some? ==> r.value in kvs && Matches(r.value, t)
    ensures r.None? <==> forall m :: m in kvs ==> !Matches(m, t)
    ensures r.Some? <==> FirstMatch(kvs, t).Some?
    ensures r.Some? ==> r.value == kvs[FirstMatch(kvs, t).value]
  {
    match FirstMatch(kvs, t)
    case None => None
    case Some(i) => Some(kvs[i])
  }

  /** Of two matching candidates, the earlier one is returned. */
  lemma EarlierMatchWins(kvs: seq<Msg>, t: SearchKv, i: nat, j: nat)
    requires i < j < |kvs|
    requires Matches(kvs[i], t) && Matches(kvs[j], t)
    ensures FindMessage(kvs, t).Some? && FindMessage(kvs, t).value == kvs[FirstMatch(kvs, t).value]
    ensures FirstMatch(kvs, t).value <= i
  {
  }

  /** The fields a candidate is compared on; `type` and every other field are not among them. */
  function MatchFields(m: Msg): (string, Option<string>, Option<string>)
  {
    (m.value.author, Field(m.value.content, "repository"), Field(m.value.content, "repositoryBranch"))
  }

  /** Two buffers that agree on author, repository and branch position by position,
      searched with targets that agree on the same three fields (the target's type
      may differ), stop at the same index. */
  lemma FirstMatchReadsOnlyMatchFields(a: seq<Msg>, b: seq<Msg>, s: SearchKv, t: SearchKv)
    requires |a| == |b|
    requires forall i :: 0 <= i < |a| ==> MatchFields(a[i]) == MatchFields(b[i])
    requires s.author == t.author && s.repository == t.repository && s.repositoryBranch == t.repositoryBranch
    ensures FirstMatch(a, s) == FirstMatch(b, t)
  {
  }

  /** The debug log of one `findMessage` call: one verdict per candidate the
      predicate was applied to, in buffer order. */
  function Trace(kvs: seq<Msg>, t: SearchKv): seq<Verdict>
  {
    if kvs == [] then []
    else if Check(kvs[0], t) == Accept then [Accept]
    else [Check(kvs[0], t)] + Trace(kvs[1..], t)
  }

  /** `Array.find` applies the predicate to the candidates up to and including
      the first match and to no later one; every verdict but that last one is a
      rejection, with its first failing check as the reason. */
  lemma {:induction false} TraceStopsAtFirstMatch(kvs: seq<Msg>, t: SearchKv)
    ensures |Trace(kvs, t)| == match FirstMatch(kvs, t) case Some(i) => i + 1 case None => |kvs|
    ensures forall i :: 0 <= i < |Trace(kvs, t)| ==> i < |kvs| && Trace(kvs, t)[i] == Check(kvs[i], t)
    ensures forall i :: 0 <= i < |Trace(kvs, t)| - 1 ==> Trace(kvs, t)[i] != Accept
    ensures FindMessage(kvs, t).Some? <==> Accept in Trace(kvs, t)
  {
    if kvs != [] && Check(kvs[0], t) != Accept {
      TraceStopsAtFirstMatch(kvs[1..], t);
      var tr := Trace(kvs, t);
      assert tr == [Check(kvs[0], t)] + Trace(kvs[1..], t);
      forall i | 0 <= i < |tr|
        ensures i < |kvs| && tr[i] == Check(kvs[i], t)
      {
        if i > 0 {
          assert tr[i] == Trace(kvs[1..], t)[i - 1];
          assert kvs[1..][i - 1] == kvs[i];
        }
      }
    }
  }

  // ---------------------------------------------------------------------------
  // The whole query

  /** `findMatching(kv, cb)`: read the stream for the target's type; on an error
      the callback gets the error and no search happens; on completion it gets
      the first match among everything that arrived. */
  method FindMatching(kv: SearchKv, messagesByType: string -> Stream) returns (r: Found)
    ensures messagesByType(kv.contentType).end.Failed? ==>
      r == StreamError(messagesByType(kv.contentType).end.reason)
    ensures messagesByType(kv.contentType).end.Done? ==>
      r == Completed(FindMessage(Values(messagesByType(kv.contentType).elements), kv))
  {
    var stream := messagesByType(kv.contentType);
    var messages := Drain(stream.elements);
    if stream.end.Failed? {
      return StreamError(stream.end.reason);
    }
    var message := FindMessage(messages, kv);
    return Completed(message);
  }
}
