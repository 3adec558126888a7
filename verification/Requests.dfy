/** Collecting resolved tokens into one lookup request. */
module Requests {
  import opened Decimal
  import opened MarketKey
  import opened PipelineSpec
  import opened PipelineTheorems

  /** What a token resolves to: its key and identifier, or nothing. */
  type Resolution<ID> = Option<(Key, ID)>

  /** Adds a token to a request.  A strict request drops a token whose identifier differs from
      the one its key already has; a lenient one feeds it all the same. */
  function WithToken<ID(==)>(strict: bool, req: Request<ID>, r: Resolution<ID>, index: nat): Request<ID> {
    if r.None? then req
    else
      var (key, id) := r.value;
      if strict && key in req.expectedId && req.expectedId[key] != id then req
      else
        Request(if key in req.indexesByKey then req.keyOrder else req.keyOrder + [key],
                if key in req.expectedId then req.expectedId else req.expectedId[key := id],
                req.indexesByKey[key := (if key in req.indexesByKey then req.indexesByKey[key] else []) + [index]])
  }

  ghost predicate SameKeys<ID>(req: Request<ID>) {
    && NoDuplicates(req.keyOrder)
    && forall k :: (k in req.keyOrder <==> k in req.indexesByKey) && (k in req.expectedId <==> k in req.indexesByKey)
  }

  ghost predicate Increasing(s: seq<nat>) {
    forall i, j | 0 <= i < j < |s| :: s[i] < s[j]
  }

  /** The list is in token order and starts with the first token of the key, which resolved to the
      identifier. */
  ghost predicate FirstIs<ID>(resolved: seq<Resolution<ID>>, k: Key, id: ID, indexes: seq<nat>) {
    && indexes != [] && Increasing(indexes)
    && (forall j | 0 <= j < |indexes| :: indexes[j] < |resolved|)
    && resolved[indexes[0]] == Some((k, id))
  }

  /** The first token of each key decides the identifier the request expects. */
  ghost predicate FirstDecides<ID>(resolved: seq<Resolution<ID>>, req: Request<ID>) {
    forall k | k in req.indexesByKey && k in req.expectedId ::
      FirstIs(resolved, k, req.expectedId[k], req.indexesByKey[k])
  }

  /** Every token is fed by its own key and no other. */
  ghost predicate Feeds<ID>(strict: bool, resolved: seq<Resolution<ID>>, req: Request<ID>) {
    forall i: nat, k | k in req.indexesByKey && k in req.expectedId ::
      i in req.indexesByKey[k] <==>
        i < |resolved| && resolved[i].Some? && resolved[i].value.0 == k &&
            (strict ==> resolved[i].value.1 == req.expectedId[k])
  }

  /** Every resolved token's key is in the request. */
  ghost predicate Covers<ID>(resolved: seq<Resolution<ID>>, req: Request<ID>) {
    forall i | 0 <= i < |resolved| && resolved[i].Some? :: resolved[i].value.0 in req.indexesByKey
  }

  /** The request lists each resolved key once and feeds it exactly its tokens, in a strict
      request only those that agree with the first. */
  ghost predicate Collects<ID>(strict: bool, resolved: seq<Resolution<ID>>, req: Request<ID>) {
    SameKeys(req) && FirstDecides(resolved, req) && Feeds(strict, resolved, req) && Covers(resolved, req)
  }

  lemma NothingCollected<ID>(strict: bool)
    ensures Collects<ID>(strict, [], Request([], map[], map[]))
  {
  }

  lemma CollectStep<ID>(strict: bool, resolved: seq<Resolution<ID>>, req: Request<ID>, r: Resolution<ID>)
    requires Collects(strict, resolved, req)
    ensures Collects(strict, resolved + [r], WithToken(strict, req, r, |resolved|))
  {
    var next := WithToken(strict, req, r, |resolved|);
    KeysStep(strict, resolved, req, r);
    FirstStep(strict, resolved, req, r);
    FeedsStep(strict, resolved, req, r);
    hide *;
    CoversStep(strict, resolved, req, r);
    CollectsIs(strict, resolved + [r], next);
  }

  lemma CollectsIs<ID>(strict: bool, resolved: seq<Resolution<ID>>, req: Request<ID>)
    ensures Collects(strict, resolved, req) <==>
              SameKeys(req) && FirstDecides(resolved, req) && Feeds(strict, resolved, req) && Covers(resolved, req)
  {
  }

  lemma KeysStep<ID>(strict: bool, resolved: seq<Resolution<ID>>, req: Request<ID>, r: Resolution<ID>)
    requires Collects(strict, resolved, req)
    ensures SameKeys(WithToken(strict, req, r, |resolved|))
  {
    hide FirstDecides, Feeds, Covers;
  }

  lemma FirstStep<ID>(strict: bool, resolved: seq<Resolution<ID>>, req: Request<ID>, r: Resolution<ID>)
    requires Collects(strict, resolved, req)
    ensures FirstDecides(resolved + [r], WithToken(strict, req, r, |resolved|))
  {
    hide Feeds, Covers, Increasing;
    var next := WithToken(strict, req, r, |resolved|);
    forall k | k in next.indexesByKey && k in next.expectedId
      ensures FirstIs(resolved + [r], k, next.expectedId[k], next.indexesByKey[k])
    {
      NextIndexes(strict, resolved, req, r, k);
      if k in req.indexesByKey {
        assert FirstIs(resolved, k, req.expectedId[k], req.indexesByKey[k]);
        FirstStays(resolved, r, k, req.expectedId[k], req.indexesByKey[k]);
      } else {
        FirstStarts(resolved, k, next.expectedId[k]);
      }
    }
  }

  /** A key's list stays, grows by the new token, or starts with it. */
  lemma NextIndexes<ID>(strict: bool, resolved: seq<Resolution<ID>>, req: Request<ID>, r: Resolution<ID>, k: Key)
    requires SameKeys(req)
    ensures var next := WithToken(strict, req, r, |resolved|);
            k in next.indexesByKey && k in next.expectedId ==>
              if k in req.indexesByKey then
                && next.expectedId[k] == req.expectedId[k]
                && (next.indexesByKey[k] == req.indexesByKey[k]
                    || next.indexesByKey[k] == req.indexesByKey[k] + [|resolved|])
              else next.indexesByKey[k] == [|resolved|] && r == Some((k, next.expectedId[k]))
  {
    if r.Some? {
      assert r.value == (r.value.0, r.value.1);
    }
  }

  lemma FirstStays<ID>(resolved: seq<Resolution<ID>>, r: Resolution<ID>, k: Key, id: ID, indexes: seq<nat>)
    requires FirstIs(resolved, k, id, indexes)
    ensures FirstIs(resolved + [r], k, id, indexes) && FirstIs(resolved + [r], k, id, indexes + [|resolved|])
  {
  }

  lemma FirstStarts<ID>(resolved: seq<Resolution<ID>>, k: Key, id: ID)
    ensures FirstIs(resolved + [Some((k, id))], k, id, [|resolved|])
  {
  }

  lemma FeedsStep<ID>(strict: bool, resolved: seq<Resolution<ID>>, req: Request<ID>, r: Resolution<ID>)
    requires Collects(strict, resolved, req)
    ensures Feeds(strict, resolved + [r], WithToken(strict, req, r, |resolved|))
  {
    hide *;
    var next, longer := WithToken(strict, req, r, |resolved|), resolved + [r];
    forall i: nat, k | k in next.indexesByKey && k in next.expectedId
      ensures FedOnlyBy(strict, longer, next, i, k)
    {
      FedStep(strict, resolved, req, r, i, k);
    }
    FeedsIs(strict, longer, next);
  }

  /** The token at `i` feeds the key exactly when it is one of the key's own. */
  ghost predicate FedOnlyBy<ID>(strict: bool, resolved: seq<Resolution<ID>>, req: Request<ID>, i: nat, k: Key)
    requires k in req.indexesByKey && k in req.expectedId
  {
    i in req.indexesByKey[k] <==>
      i < |resolved| && resolved[i].Some? && resolved[i].value.0 == k &&
          (strict ==> resolved[i].value.1 == req.expectedId[k])
  }

  lemma FeedsIs<ID>(strict: bool, resolved: seq<Resolution<ID>>, req: Request<ID>)
    requires forall i: nat, k | k in req.indexesByKey && k in req.expectedId :: FedOnlyBy(strict, resolved, req, i, k)
    ensures Feeds(strict, resolved, req)
  {
    forall i: nat, k | k in req.indexesByKey && k in req.expectedId
      ensures i in req.indexesByKey[k] <==>
        i < |resolved| && resolved[i].Some? && resolved[i].value.0 == k &&
            (strict ==> resolved[i].value.1 == req.expectedId[k])
    {
      assert FedOnlyBy(strict, resolved, req, i, k);
    }
  }

  lemma FedStep<ID>(strict: bool, resolved: seq<Resolution<ID>>, req: Request<ID>, r: Resolution<ID>, i: nat, k: Key)
    requires Collects(strict, resolved, req)
    requires var next := WithToken(strict, req, r, |resolved|); k in next.indexesByKey && k in next.expectedId
    ensures FedOnlyBy(strict, resolved + [r], WithToken(strict, req, r, |resolved|), i, k)
  {
    hide FirstDecides, NoDuplicates;
    var next := WithToken(strict, req, r, |resolved|);
    if k in req.indexesByKey {
      assert k in req.expectedId && next.expectedId[k] == req.expectedId[k];
      assert i in next.indexesByKey[k] <==>
          i in req.indexesByKey[k] || (next != req && r.value.0 == k && i == |resolved|);
    } else {
      assert next.indexesByKey[k] == [|resolved|];
      assert i < |resolved| && resolved[i].Some? ==> resolved[i].value.0 != k;
    }
  }

  lemma CoversStep<ID>(strict: bool, resolved: seq<Resolution<ID>>, req: Request<ID>, r: Resolution<ID>)
    requires Collects(strict, resolved, req)
    ensures Covers(resolved + [r], WithToken(strict, req, r, |resolved|))
  {
    hide FirstDecides, Feeds;
  }

  /** A collected request's keys are distinct, its index lists disjoint and within bounds. */
  lemma CollectedIsDisjoint<ID>(strict: bool, resolved: seq<Resolution<ID>>, req: Request<ID>)
    requires Collects(strict, resolved, req)
    ensures NoDuplicates(req.keyOrder) && DisjointIndexes(req)
    ensures forall k, i | k in req.indexesByKey && 0 <= i < |req.indexesByKey[k]| :: req.indexesByKey[k][i] < |resolved|
  {
    forall k, l, i | k in req.indexesByKey && l in req.indexesByKey && k != l && i in req.indexesByKey[k]
      ensures i !in req.indexesByKey[l]
    {
      assert resolved[i].value.0 == k;
    }
  }
}
