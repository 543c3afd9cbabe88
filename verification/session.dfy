/**
 * The state the page keeps: the cache of formatter answers, keyed by a
 * digest of the block that was sent, and the deck on display; and the
 * convert action that fills both.
 *
 * `handleConvert` starts one `formatWithCache` call per block after the
 * first, all at once. Each call looks the block up and, on a miss, sends its
 * request before any answer has come back; the answers are then stored in
 * the order they arrive. So the cache a conversion consults is the one it
 * started with, and `formatWithCache` is modelled as its two halves around
 * the `await`: `Lookup` and `Settle`.
 */
module Session {
  import opened Wrappers
  import opened Deck

  /** The message of the exception thrown when the format endpoint fails. */
  const FormatError: string := "Failed to format content"

  /**
   * A `formatWithCache` call after its synchronous part: it either found an
   * answer in the cache, or sent its block and waits to store the answer
   * under the block's digest.
   */
  datatype Pending = Cached(value: string) | Sent(digest: string)

  /** Every entry of `small` is in `large` with the same value. */
  ghost predicate Grows(small: map<string, string>, large: map<string, string>) {
    forall k :: k in small ==> k in large && large[k] == small[k]
  }

  /** The digests of the blocks sent so far. */
  function Digests(hash: string -> string, sent: seq<string>): set<string> {
    set q | q in sent :: hash(q)
  }

  lemma DigestsAppend(hash: string -> string, sent: seq<string>, q: string)
    ensures Digests(hash, sent + [q]) == Digests(hash, sent) + {hash(q)}
  {
  }

  /**
   * What the call for `block` resolves to, given the cache it started with
   * and the endpoint's answer (`None` for a failed response).
   */
  function Outcome(before: map<string, string>, hash: string -> string, block: string,
                   response: Option<string>): Result<string> {
    if hash(block) in before then Ok(before[hash(block)])
    else if response.Some? then Ok(response.value)
    else Err(FormatError)
  }

  /**
   * The blocks among `blocks[1..i]` that a conversion starting from the
   * cache `before` sends to the endpoint, in block order: those whose digest
   * is not cached, duplicates included.
   */
  function Issued(before: map<string, string>, hash: string -> string, blocks: seq<string>, i: nat): (sent: seq<string>)
    requires 1 <= i <= |blocks|
    ensures |sent| <= i - 1
    ensures forall q :: q in sent ==> q in blocks[1..i] && hash(q) !in before
    decreases i
  {
    if i == 1 then []
    else
      var earlier := Issued(before, hash, blocks, i - 1);
      assert forall q :: q in blocks[1..i - 1] ==> q in blocks[1..i] by {
        assert blocks[1..i] == blocks[1..i - 1] + [blocks[i - 1]];
      }
      if hash(blocks[i - 1]) in before then earlier else earlier + [blocks[i - 1]]
  }

  /** What the synchronous part of the call for `block` leaves behind, given the cache. */
  function PendingFor(before: map<string, string>, hash: string -> string, block: string): Pending {
    if hash(block) in before then Cached(before[hash(block)]) else Sent(hash(block))
  }

  /**
   * `pending[k]` is what the call for block k + 1 left behind, and every
   * digest awaiting an answer is one of a block in `sent`.
   */
  ghost predicate Started(before: map<string, string>, hash: string -> string, blocks: seq<string>,
                          pending: seq<Pending>, sent: seq<string>) {
    && |pending| < |blocks|
    && (forall k :: 0 <= k < |pending| ==> pending[k] == PendingFor(before, hash, blocks[k + 1]))
    && (forall k :: 0 <= k < |pending| && pending[k].Sent? ==> pending[k].digest in Digests(hash, sent))
  }

  lemma StartedStep(before: map<string, string>, hash: string -> string, blocks: seq<string>,
                    pending: seq<Pending>, sent: seq<string>, p: Pending, sent': seq<string>)
    requires Started(before, hash, blocks, pending, sent)
    requires |pending| + 1 < |blocks|
    requires Digests(hash, sent) <= Digests(hash, sent')
    requires p == PendingFor(before, hash, blocks[|pending| + 1])
    requires p.Sent? ==> p.digest in Digests(hash, sent')
    ensures Started(before, hash, blocks, pending + [p], sent')
  {
  }

  /**
   * The calls for blocks 1 .. i-1 have run their synchronous part: `sent`
   * is `past` followed by the blocks they sent.
   */
  ghost predicate StartedUpTo(before: map<string, string>, hash: string -> string, blocks: seq<string>, i: nat,
                              pending: seq<Pending>, past: seq<string>, sent: seq<string>) {
    && 1 <= i <= |blocks|
    && |pending| == i - 1
    && sent == past + Issued(before, hash, blocks, i)
    && Started(before, hash, blocks, pending, sent)
  }

  lemma StartedUpToStep(before: map<string, string>, hash: string -> string, blocks: seq<string>, i: nat,
                        pending: seq<Pending>, past: seq<string>, sent: seq<string>, p: Pending, sent': seq<string>)
    requires StartedUpTo(before, hash, blocks, i, pending, past, sent)
    requires i < |blocks|
    requires p == PendingFor(before, hash, blocks[i])
    requires sent' == if p.Sent? then sent + [blocks[i]] else sent
    ensures StartedUpTo(before, hash, blocks, i + 1, pending + [p], past, sent')
  {
    DigestsAppend(hash, sent, blocks[i]);
    StartedStep(before, hash, blocks, pending, sent, p, sent');
    if p.Sent? {
      assert past + Issued(before, hash, blocks, i + 1) == (past + Issued(before, hash, blocks, i)) + [blocks[i]];
    }
  }

  /** The call for block `a` was sent and got an answer. */
  predicate StoresAnswer(before: map<string, string>, hash: string -> string, blocks: seq<string>,
                         responses: nat -> Option<string>, a: nat) {
    a < |blocks| && hash(blocks[a]) !in before && responses(a).Some?
  }

  /**
   * The cache after the calls for the blocks in `arrived` have stored their
   * answers, in that order: a sent block with an answer overwrites its digest.
   */
  function Stored(before: map<string, string>, hash: string -> string, blocks: seq<string>,
                  responses: nat -> Option<string>, arrived: seq<nat>): map<string, string>
    requires forall k :: 0 <= k < |arrived| ==> arrived[k] < |blocks|
    decreases |arrived|
  {
    if |arrived| == 0 then before
    else
      var a := arrived[|arrived| - 1];
      var m := Stored(before, hash, blocks, responses, arrived[..|arrived| - 1]);
      if StoresAnswer(before, hash, blocks, responses, a) then m[hash(blocks[a]) := responses(a).value] else m
  }

  /** `arrival` lists the blocks after the first, each once: the order their calls finish. */
  predicate ArrivalOrder(arrival: seq<nat>, n: nat) {
    && (forall k :: 0 <= k < |arrival| ==> 1 <= arrival[k] < n)
    && (forall i :: 1 <= i < n ==> i in arrival)
    && (forall k, l :: 0 <= k < l < |arrival| ==> arrival[k] != arrival[l])
  }

  /** Every call of a conversion starting from `before` resolves to an answer. */
  predicate AllAnswered(before: map<string, string>, hash: string -> string, blocks: seq<string>,
                        responses: nat -> Option<string>) {
    forall i :: 1 <= i < |blocks| ==> Outcome(before, hash, blocks[i], responses(i)).Ok?
  }

  /** The answer each block's call resolved to (the first block has none). */
  function Answers(before: map<string, string>, hash: string -> string, blocks: seq<string>,
                   responses: nat -> Option<string>): (bodies: seq<string>)
    ensures |bodies| == |blocks|
  {
    seq(|blocks|, i requires 0 <= i < |blocks| =>
      if i > 0 && Outcome(before, hash, blocks[i], responses(i)).Ok?
      then Outcome(before, hash, blocks[i], responses(i)).value else "")
  }

  /** The answer the cache holds for each block after the first. */
  function CachedAnswers(entries: map<string, string>, hash: string -> string, blocks: seq<string>): (bodies: seq<string>)
    ensures |bodies| == |blocks|
  {
    seq(|blocks|, i requires 0 <= i < |blocks| =>
      if i > 0 && hash(blocks[i]) in entries then entries[hash(blocks[i])] else "")
  }

  /** Storing answers never changes or removes an entry the conversion started with. */
  lemma {:induction false} StoredGrows(before: map<string, string>, hash: string -> string, blocks: seq<string>,
                                       responses: nat -> Option<string>, arrived: seq<nat>)
    requires forall k :: 0 <= k < |arrived| ==> arrived[k] < |blocks|
    ensures Grows(before, Stored(before, hash, blocks, responses, arrived))
    decreases |arrived|
  {
    if |arrived| > 0 {
      StoredGrows(before, hash, blocks, responses, arrived[..|arrived| - 1]);
    }
  }

  /**
   * After the calls in `arrived` finish, the cache holds the digest of every
   * one of them that was sent and answered, and no digest besides those and
   * the ones it started with.
   */
  lemma {:induction false} StoredKeys(before: map<string, string>, hash: string -> string, blocks: seq<string>,
                                      responses: nat -> Option<string>, arrived: seq<nat>)
    requires forall k :: 0 <= k < |arrived| ==> arrived[k] < |blocks|
    ensures var m := Stored(before, hash, blocks, responses, arrived);
      && (forall a :: a in arrived && StoresAnswer(before, hash, blocks, responses, a) ==> hash(blocks[a]) in m)
      && (forall d :: d in m ==>
            (d in before || exists a :: a in arrived && StoresAnswer(before, hash, blocks, responses, a) && hash(blocks[a]) == d))
    decreases |arrived|
  {
    if |arrived| > 0 {
      var init := arrived[..|arrived| - 1];
      StoredKeys(before, hash, blocks, responses, init);
      assert arrived == init + [arrived[|arrived| - 1]];
    }
  }

  /**
   * When the sent blocks that share a digest got the same answer, the order
   * the answers arrive in does not matter: each such digest holds that answer.
   */
  lemma {:induction false} StoredConsistent(before: map<string, string>, hash: string -> string, blocks: seq<string>,
                                            responses: nat -> Option<string>, arrived: seq<nat>)
    requires forall k :: 0 <= k < |arrived| ==> arrived[k] < |blocks|
    requires forall a, b ::
      (a in arrived && b in arrived && StoresAnswer(before, hash, blocks, responses, a)
        && StoresAnswer(before, hash, blocks, responses, b) && hash(blocks[a]) == hash(blocks[b]))
      ==> responses(a) == responses(b)
    ensures var m := Stored(before, hash, blocks, responses, arrived);
      forall a :: a in arrived && StoresAnswer(before, hash, blocks, responses, a) ==>
        hash(blocks[a]) in m && m[hash(blocks[a])] == responses(a).value
    decreases |arrived|
  {
    if |arrived| > 0 {
      var init := arrived[..|arrived| - 1];
      StoredConsistent(before, hash, blocks, responses, init);
      StoredKeys(before, hash, blocks, responses, init);
      assert arrived == init + [arrived[|arrived| - 1]];
    }
  }

  /**
   * A successful conversion leaves every block after the first with its
   * digest cached.
   */
  lemma ConvertCachesEveryBlock(before: map<string, string>, hash: string -> string, blocks: seq<string>,
                                responses: nat -> Option<string>, arrival: seq<nat>)
    requires ArrivalOrder(arrival, |blocks|)
    requires AllAnswered(before, hash, blocks, responses)
    ensures forall i :: 1 <= i < |blocks| ==> hash(blocks[i]) in Stored(before, hash, blocks, responses, arrival)
  {
    StoredGrows(before, hash, blocks, responses, arrival);
    StoredKeys(before, hash, blocks, responses, arrival);
    forall i | 1 <= i < |blocks| ensures hash(blocks[i]) in Stored(before, hash, blocks, responses, arrival) {
      assert Outcome(before, hash, blocks[i], responses(i)).Ok?;
    }
  }

  /** A conversion whose blocks are all cached sends nothing. */
  lemma {:induction false} AllCachedIssuesNothing(before: map<string, string>, hash: string -> string,
                                                  blocks: seq<string>, i: nat)
    requires 1 <= i <= |blocks|
    requires forall j :: 1 <= j < i ==> hash(blocks[j]) in before
    ensures Issued(before, hash, blocks, i) == []
    decreases i
  {
    if i > 1 {
      AllCachedIssuesNothing(before, hash, blocks, i - 1);
    }
  }

  /**
   * Converting the same notes again after a successful conversion sends no
   * request.
   */
  lemma ReconvertIssuesNothing(before: map<string, string>, hash: string -> string, blocks: seq<string>,
                               responses: nat -> Option<string>, arrival: seq<nat>)
    requires |blocks| >= 1
    requires ArrivalOrder(arrival, |blocks|)
    requires AllAnswered(before, hash, blocks, responses)
    ensures Issued(Stored(before, hash, blocks, responses, arrival), hash, blocks, |blocks|) == []
  {
    ConvertCachesEveryBlock(before, hash, blocks, responses, arrival);
    AllCachedIssuesNothing(Stored(before, hash, blocks, responses, arrival), hash, blocks, |blocks|);
  }

  /**
   * Nothing deduplicates requests within one conversion: when no digest is
   * cached, every block after the first is sent, repeated blocks each time.
   */
  lemma {:induction false} NothingCachedIssuesAll(before: map<string, string>, hash: string -> string,
                                                  blocks: seq<string>, i: nat)
    requires 1 <= i <= |blocks|
    requires forall j :: 1 <= j < i ==> hash(blocks[j]) !in before
    ensures Issued(before, hash, blocks, i) == blocks[1..i]
    decreases i
  {
    if i > 1 {
      NothingCachedIssuesAll(before, hash, blocks, i - 1);
      assert hash(blocks[i - 1]) !in before;
      assert Issued(before, hash, blocks, i) == Issued(before, hash, blocks, i - 1) + [blocks[i - 1]];
      assert blocks[1..i] == blocks[1..i - 1] + [blocks[i - 1]];
    }
  }

  /**
   * When blocks with the same digest got the same answer, the deck shows
   * exactly what the cache holds afterwards for each block.
   */
  lemma DeckFromCache(before: map<string, string>, hash: string -> string, blocks: seq<string>,
                      responses: nat -> Option<string>, arrival: seq<nat>)
    requires ArrivalOrder(arrival, |blocks|)
    requires AllAnswered(before, hash, blocks, responses)
    requires forall a, b ::
      (1 <= a < |blocks| && 1 <= b < |blocks| && hash(blocks[a]) == hash(blocks[b]))
      ==> responses(a) == responses(b)
    ensures Answers(before, hash, blocks, responses)
         == CachedAnswers(Stored(before, hash, blocks, responses, arrival), hash, blocks)
  {
    var m := Stored(before, hash, blocks, responses, arrival);
    StoredGrows(before, hash, blocks, responses, arrival);
    StoredConsistent(before, hash, blocks, responses, arrival);
    var x := Answers(before, hash, blocks, responses);
    var y := CachedAnswers(m, hash, blocks);
    forall i | 0 <= i < |blocks| ensures x[i] == y[i] {
      if i > 0 {
        assert Outcome(before, hash, blocks[i], responses(i)).Ok?;
        if hash(blocks[i]) !in before {
          assert StoresAnswer(before, hash, blocks, responses, i);
        }
      }
    }
  }

  /**
   * Without that agreement the deck and the cache can differ: two identical
   * blocks, both sent, answered differently; slide 1 shows the first answer
   * while the cache keeps the one that arrived last.
   */
  lemma DuplicateAnswersDisagree()
    ensures var hash := (q: string) => q;
            var responses := (i: nat) => if i == 1 then Some("x") else Some("y");
            var blocks := ["t", "b", "b"];
      && Issued(map[], hash, blocks, 3) == ["b", "b"]
      && Answers(map[], hash, blocks, responses)[1] == "x"
      && CachedAnswers(Stored(map[], hash, blocks, responses, [1, 2]), hash, blocks)[1] == "y"
  {
    var hash := (q: string) => q;
    var responses := (i: nat) => if i == 1 then Some("x") else Some("y");
    var blocks := ["t", "b", "b"];
    NothingCachedIssuesAll(map[], hash, blocks, 3);
    assert [1, 2][..1] == [1];
    assert [1][..0] == [];
    assert Stored(map[], hash, blocks, responses, [1, 2]) == map["b" := "y"];
  }

  /**
   * `Promise.all` over the calls for blocks 1 .. n-1, in block order: the
   * answers by block index (the title block, which makes no call, gets the
   * empty string); any failed call fails it all, with `FormatError`.
   */
  method AwaitAll(n: nat, results: map<nat, Result<string>>) returns (r: Result<seq<string>>)
    requires forall i :: 1 <= i < n ==> i in results
    requires forall i :: 1 <= i < n && results[i].Err? ==> results[i].error == FormatError
    ensures r.Ok? <==> forall i :: 1 <= i < n ==> results[i].Ok?
    ensures r.Err? ==> r.error == FormatError
    ensures r.Ok? ==> && |r.value| == n
                      && (n > 0 ==> r.value[0] == "")
                      && forall t :: 1 <= t < n ==> r.value[t] == results[t].value
  {
    if n == 0 {
      return Ok([]);
    }
    var answers := [""];
    var i := 1;
    while i < n
      invariant 1 <= i <= n
      invariant |answers| == i && answers[0] == ""
      invariant forall t :: 1 <= t < i ==> results[t].Ok? && answers[t] == results[t].value
    {
      if results[i].Err? {
        return Err(results[i].error);
      }
      answers := answers + [results[i].value];
      i := i + 1;
    }
    return Ok(answers);
  }

  /**
   * The calls for the blocks `arrival[..k]` have finished, in that order:
   * `entries` is the cache they leave and `results` what each resolved to.
   */
  ghost predicate FinishedUpTo(before: map<string, string>, hash: string -> string, blocks: seq<string>,
                               responses: nat -> Option<string>, arrival: seq<nat>, k: nat,
                               results: map<nat, Result<string>>, entries: map<string, string>) {
    && k <= |arrival|
    && (forall j :: 0 <= j < |arrival| ==> arrival[j] < |blocks|)
    && entries == Stored(before, hash, blocks, responses, arrival[..k])
    && (forall a :: a in arrival[..k] ==>
          a in results && results[a] == Outcome(before, hash, blocks[a], responses(a)))
  }

  lemma FinishedUpToStep(before: map<string, string>, hash: string -> string, blocks: seq<string>,
                         responses: nat -> Option<string>, arrival: seq<nat>, k: nat,
                         results: map<nat, Result<string>>, entries: map<string, string>,
                         res: Result<string>, entries': map<string, string>)
    requires FinishedUpTo(before, hash, blocks, responses, arrival, k, results, entries)
    requires k < |arrival|
    requires res == Outcome(before, hash, blocks[arrival[k]], responses(arrival[k]))
    requires StoresAnswer(before, hash, blocks, responses, arrival[k]) ==>
      entries' == entries[hash(blocks[arrival[k]]) := responses(arrival[k]).value]
    requires !StoresAnswer(before, hash, blocks, responses, arrival[k]) ==> entries' == entries
    ensures FinishedUpTo(before, hash, blocks, responses, arrival, k + 1, results[arrival[k] := res], entries')
  {
    assert arrival[..k + 1] == arrival[..k] + [arrival[k]];
    assert arrival[..k + 1][..k] == arrival[..k];
  }

  lemma FinishedAll(before: map<string, string>, hash: string -> string, blocks: seq<string>,
                    responses: nat -> Option<string>, arrival: seq<nat>,
                    results: map<nat, Result<string>>, entries: map<string, string>)
    requires FinishedUpTo(before, hash, blocks, responses, arrival, |arrival|, results, entries)
    requires ArrivalOrder(arrival, |blocks|)
    ensures entries == Stored(before, hash, blocks, responses, arrival)
    ensures forall i :: 1 <= i < |blocks| ==>
      i in results && results[i] == Outcome(before, hash, blocks[i], responses(i))
  {
    assert arrival[..|arrival|] == arrival;
  }

  /** What `AwaitAll` collects from the finished calls is the conversion's outcome. */
  lemma CollectedAnswers(before: map<string, string>, hash: string -> string, blocks: seq<string>,
                         responses: nat -> Option<string>, results: map<nat, Result<string>>,
                         r: Result<seq<string>>)
    requires forall i :: 1 <= i < |blocks| ==>
      i in results && results[i] == Outcome(before, hash, blocks[i], responses(i))
    requires r.Ok? <==> forall i :: 1 <= i < |blocks| ==> results[i].Ok?
    requires r.Ok? ==> && |r.value| == |blocks|
                       && (|blocks| > 0 ==> r.value[0] == "")
                       && forall t :: 1 <= t < |blocks| ==> r.value[t] == results[t].value
    ensures r.Ok? <==> AllAnswered(before, hash, blocks, responses)
    ensures r.Ok? ==> r.value == Answers(before, hash, blocks, responses)
  {
  }

  /** The state of the page component. */
  class Home {
    /** `hashContent`: the digest that keys the cache, left abstract. */
    const hash: string -> string

    /** `formatCache`: digest of a block to the formatter's answer for it. */
    var formatCache: map<string, string>

    /** `ppt`: the deck on display, `None` while converting or before the first conversion. */
    var ppt: Option<Presentation>

    /** The blocks sent to the format endpoint so far, in order. */
    ghost var requests: seq<string>

    /** Every digest the cache holds is the digest of a block that was sent. */
    ghost predicate Valid()
      reads this
    {
      formatCache.Keys <= Digests(hash, requests)
    }

    constructor (hash: string -> string)
      ensures Valid()
      ensures this.hash == hash && formatCache == map[] && ppt == None && requests == []
    {
      this.hash := hash;
      formatCache := map[];
      ppt := None;
      requests := [];
    }

    /**
     * `formatWithCache` up to its `await`: a cached answer is returned at
     * once; otherwise the block is sent and the call waits for the answer.
     */
    method Lookup(content: string) returns (p: Pending)
      requires Valid()
      modifies this
      ensures Valid()
      ensures formatCache == old(formatCache) && ppt == old(ppt)
      ensures p == PendingFor(formatCache, hash, content)
      ensures hash(content) in formatCache ==> p == Cached(formatCache[hash(content)]) && requests == old(requests)
      ensures hash(content) !in formatCache ==> p == Sent(hash(content)) && requests == old(requests) + [content]
    {
      var contentHash := hash(content);
      if contentHash in formatCache {
        return Cached(formatCache[contentHash]);
      }
      DigestsAppend(hash, requests, content);
      requests := requests + [content];
      return Sent(contentHash);
    }

    /**
     * `formatWithCache` after its `await`: a failed response throws; a
     * successful one is stored under the digest, with no other entry touched.
     */
    method Settle(p: Pending, response: Option<string>) returns (r: Result<string>)
      requires Valid()
      requires p.Sent? ==> p.digest in Digests(hash, requests)
      modifies this
      ensures Valid()
      ensures requests == old(requests) && ppt == old(ppt)
      ensures p.Cached? ==> r == Ok(p.value) && formatCache == old(formatCache)
      ensures p.Sent? && response.Some? ==>
        r == Ok(response.value) && formatCache == old(formatCache)[p.digest := response.value]
      ensures p.Sent? && response.None? ==> r == Err(FormatError) && formatCache == old(formatCache)
    {
      match p
      case Cached(value) =>
        return Ok(value);
      case Sent(contentHash) =>
        if response.None? {
          return Err(FormatError);
        }
        var formattedContent := response.value;
        formatCache := formatCache[contentHash := formattedContent];
        return Ok(formattedContent);
    }

    /**
     * `formatWithCache(content)` run on its own: on a hit the endpoint is not
     * asked and nothing changes; on a miss the block is sent and only a
     * successful answer is stored, under the block's digest.
     */
    method FormatWithCache(content: string, response: Option<string>) returns (r: Result<string>)
      requires Valid()
      modifies this
      ensures Valid()
      ensures ppt == old(ppt)
      ensures hash(content) in old(formatCache) ==>
        r == Ok(old(formatCache)[hash(content)]) && formatCache == old(formatCache) && requests == old(requests)
      ensures hash(content) !in old(formatCache) ==> requests == old(requests) + [content]
      ensures hash(content) !in old(formatCache) && response.Some? ==>
        r == Ok(response.value) && formatCache == old(formatCache)[hash(content) := response.value]
      ensures hash(content) !in old(formatCache) && response.None? ==>
        r == Err(FormatError) && formatCache == old(formatCache)
    {
      var p := Lookup(content);
      r := Settle(p, response);
    }

    /**
     * `handleConvert`. The notes are cut into blocks; the first becomes the
     * title slide; every other block's call looks it up against the cache as
     * it was when the conversion started, sending the misses in block order;
     * the calls then finish in the order `arrival` gives, `responses(i)` being
     * the endpoint's answer for block i. The deck is shown only when every
     * call got an answer, and is then the deck built from those answers.
     */
    method HandleConvert(rawText: string, responses: nat -> Option<string>, arrival: seq<nat>)
      returns (r: Result<Presentation>)
      requires Valid()
      requires ArrivalOrder(arrival, |Blocks(rawText)|)
      modifies this
      ensures Valid()
      ensures requests == old(requests) + Issued(old(formatCache), hash, Blocks(rawText), |Blocks(rawText)|)
      ensures formatCache == Stored(old(formatCache), hash, Blocks(rawText), responses, arrival)
      ensures r.Ok? <==> AllAnswered(old(formatCache), hash, Blocks(rawText), responses)
      ensures r.Ok? ==> r.value == Build(rawText, Answers(old(formatCache), hash, Blocks(rawText), responses))
      ensures r.Err? ==> r.error == FormatError
      ensures ppt == (if r.Ok? then Some(r.value) else None)
    {
      ppt := None;
      var blocks := Blocks(rawText);
      var answers := ConvertBlocks(blocks, responses, arrival);
      if answers.Err? {
        return Err(answers.error);
      }
      var deck := Build(rawText, answers.value);
      ppt := Some(deck);
      return Ok(deck);
    }

    /**
     * The calls of one conversion: all look their block up first, then they
     * finish in arrival order, then their answers are collected.
     */
    method ConvertBlocks(blocks: seq<string>, responses: nat -> Option<string>, arrival: seq<nat>)
      returns (r: Result<seq<string>>)
      requires Valid()
      requires |blocks| >= 1
      requires ArrivalOrder(arrival, |blocks|)
      modifies this
      ensures Valid()
      ensures ppt == old(ppt)
      ensures requests == old(requests) + Issued(old(formatCache), hash, blocks, |blocks|)
      ensures formatCache == Stored(old(formatCache), hash, blocks, responses, arrival)
      ensures r.Ok? <==> AllAnswered(old(formatCache), hash, blocks, responses)
      ensures r.Ok? ==> r.value == Answers(old(formatCache), hash, blocks, responses)
      ensures r.Err? ==> r.error == FormatError
    {
      var pending := StartCalls(blocks);
      var results := FinishCalls(blocks, pending, responses, arrival);
      r := AwaitAll(|blocks|, results);
      CollectedAnswers(old(formatCache), hash, blocks, responses, results, r);
    }

    /** The synchronous part of every call, in block order, for the blocks after the first. */
    method StartCalls(blocks: seq<string>) returns (pending: seq<Pending>)
      requires Valid()
      requires |blocks| >= 1
      modifies this
      ensures Valid()
      ensures formatCache == old(formatCache) && ppt == old(ppt)
      ensures StartedUpTo(formatCache, hash, blocks, |blocks|, pending, old(requests), requests)
    {
      pending := [];
      var i := 1;
      while i < |blocks|
        invariant Valid()
        invariant formatCache == old(formatCache) && ppt == old(ppt)
        invariant StartedUpTo(formatCache, hash, blocks, i, pending, old(requests), requests)
      {
        ghost var sent := requests;
        var p := Lookup(blocks[i]);
        StartedUpToStep(formatCache, hash, blocks, i, pending, old(requests), sent, p, requests);
        pending := pending + [p];
        i := i + 1;
      }
    }

    /** Every call after its `await`, in arrival order: results by block index. */
    method FinishCalls(blocks: seq<string>, pending: seq<Pending>, responses: nat -> Option<string>,
                       arrival: seq<nat>) returns (results: map<nat, Result<string>>)
      requires Valid()
      requires |pending| == |blocks| - 1
      requires ArrivalOrder(arrival, |blocks|)
      requires Started(formatCache, hash, blocks, pending, requests)
      modifies this
      ensures Valid()
      ensures requests == old(requests) && ppt == old(ppt)
      ensures formatCache == Stored(old(formatCache), hash, blocks, responses, arrival)
      ensures forall i :: 1 <= i < |blocks| ==>
        i in results && results[i] == Outcome(old(formatCache), hash, blocks[i], responses(i))
    {
      results := map[];
      var k := 0;
      while k < |arrival|
        invariant 0 <= k <= |arrival|
        invariant Valid()
        invariant requests == old(requests) && ppt == old(ppt)
        invariant FinishedUpTo(old(formatCache), hash, blocks, responses, arrival, k, results, formatCache)
      {
        var a := arrival[k];
        ghost var entries := formatCache;
        var res := Settle(pending[a - 1], responses(a));
        FinishedUpToStep(old(formatCache), hash, blocks, responses, arrival, k, results, entries, res, formatCache);
        results := results[a := res];
        k := k + 1;
      }
      FinishedAll(old(formatCache), hash, blocks, responses, arrival, results, formatCache);
    }
  }
}
