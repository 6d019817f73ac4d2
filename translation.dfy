/**
 * getTranslation: the provider call with its fallback to the original text,
 * and the memoisation of its results by (text, target language).
 */
module Translation {
  import opened Text
  import opened Truncation

  /** A text and the language to translate it into: the cache key is built
      from the original text, the provider request from the excerpt. */
  datatype Query = Query(text: string, targetLang: string)

  /** What the DeepL client's `translate_text` does with one request: a
      translation, a `DeepLException`, or any other exception. */
  datatype Reply = Translated(text: string) | DeepLError(message: string) | UnexpectedError(message: string)

  /** The DeepL client. What the service answers to the `n`-th request is an
      arbitrary function `oracle` of `n` and the request; `sent` records every
      request made so far. */
  class Translator {
    const oracle: (nat, Query) -> Reply
    var sent: seq<Query>

    constructor (oracle: (nat, Query) -> Reply)
      ensures this.oracle == oracle && sent == []
    {
      this.oracle := oracle;
      sent := [];
    }

    /** `translator.translate_text(text, target_lang=...)`. */
    method TranslateText(q: Query) returns (reply: Reply)
      modifies this
      ensures sent == old(sent) + [q]
      ensures reply == oracle(|old(sent)|, q)
    {
      reply := oracle(|sent|, q);
      sent := sent + [q];
    }
  }

  /** The `try`/`except`: the provider's text on success; on a DeepL error or
      any other error, the original text. */
  function Resolve(original: string, reply: Reply): (r: string)
    ensures reply.Translated? ==> r == reply.text
    ensures !reply.Translated? ==> r == original
  {
    match reply
    case Translated(t) => t
    case DeepLError(_) => original
    case UnexpectedError(_) => original
  }

  /** The request getTranslation sends for `q`: the truncated text. */
  function Request(q: Query): Query {
    Query(Truncate(q.text), q.targetLang)
  }

  /** What one uncached call of getTranslation does, given the provider log
      `before` it started from: a blank text is returned without any request;
      any other text makes exactly one request, for its excerpt, and yields
      the provider's text or, on failure, the original untruncated text. */
  ghost predicate Computes(t: Translator, before: seq<Query>, q: Query, r: string)
    reads t
  {
    if Strip(q.text) == [] then
      t.sent == before && r == q.text
    else
      && t.sent == before + [Request(q)]
      && r == Resolve(q.text, t.oracle(|before|, Request(q)))
  }

  /** The body of getTranslation, without the memoisation decorator. */
  method ComputeTranslation(translator: Translator, q: Query) returns (r: string)
    modifies translator
    ensures Computes(translator, old(translator.sent), q, r)
  {
    if Strip(q.text) == [] {
      return q.text;
    }
    var reply := translator.TranslateText(Request(q));
    r := Resolve(q.text, reply);
  }

  /** Every key of `m1` is in `m2`, with the same value. */
  ghost predicate Extends(m1: map<Query, string>, m2: map<Query, string>) {
    forall q :: q in m1 ==> q in m2 && m2[q] == m1[q]
  }

  /** The keys of `m2` are those of `m1` and the texts of `calls`, and no
      others. */
  ghost predicate Gained(m1: map<Query, string>, m2: map<Query, string>, calls: seq<Query>) {
    forall q :: q in m2 <==> q in m1 || q in calls
  }

  lemma GainedTransitive(m1: map<Query, string>, m2: map<Query, string>, m3: map<Query, string>, a: seq<Query>, b: seq<Query>)
    requires Gained(m1, m2, a) && Gained(m2, m3, b)
    ensures Gained(m1, m3, a + b)
  {
  }

  /** The requests that a run of getTranslation calls makes, in call order,
      starting from a cache holding the keys `cached`: a call whose key is
      cached makes none; any other call caches its key, and makes one request
      unless its text is blank. */
  ghost function NewRequests(calls: seq<Query>, cached: set<Query>): seq<Query>
    decreases |calls|
  {
    if calls == [] then []
    else
      var q := calls[0];
      if q in cached then NewRequests(calls[1..], cached)
      else if Strip(q.text) == [] then NewRequests(calls[1..], cached + {q})
      else [q] + NewRequests(calls[1..], cached + {q})
  }

  /** What the provider receives for those requests: their excerpts. */
  ghost function Requests(qs: seq<Query>): (sent: seq<Query>)
    ensures |sent| == |qs|
    ensures forall j :: 0 <= j < |qs| ==> sent[j] == Request(qs[j])
  {
    seq(|qs|, j requires 0 <= j < |qs| => Request(qs[j]))
  }

  /** Running the calls `a` and then the calls `b` requests what `a` requests
      from the first cache, then what `b` requests from the cache `a` left. */
  lemma {:induction false} NewRequestsAppend(a: seq<Query>, b: seq<Query>, cached: set<Query>, cached': set<Query>)
    requires forall q :: q in cached' <==> q in cached || q in a
    ensures NewRequests(a + b, cached) == NewRequests(a, cached) + NewRequests(b, cached')
    decreases |a|
  {
    if a == [] {
      assert cached' == cached;
      assert a + b == b;
    } else {
      var q := a[0];
      assert (a + b)[0] == q && (a + b)[1..] == a[1..] + b;
      var next := if q in cached then cached else cached + {q};
      forall k ensures k in cached' <==> k in next || k in a[1..] {
        assert k in a <==> k == q || k in a[1..];
      }
      NewRequestsAppend(a[1..], b, next, cached');
    }
  }

  /** Two runs of calls, one after the other, gain the keys of both runs and
      request what the joined run requests. */
  lemma CallsCompose(m0: map<Query, string>, m1: map<Query, string>, m2: map<Query, string>,
                     r0: seq<Query>, r1: seq<Query>, r2: seq<Query>, a: seq<Query>, b: seq<Query>)
    requires Gained(m0, m1, a) && Gained(m1, m2, b)
    requires r1 == r0 + NewRequests(a, m0.Keys)
    requires r2 == r1 + NewRequests(b, m1.Keys)
    ensures Gained(m0, m2, a + b)
    ensures r2 == r0 + NewRequests(a + b, m0.Keys)
  {
    GainedTransitive(m0, m1, m2, a, b);
    forall q ensures q in m1.Keys <==> q in m0.Keys || q in a {
      assert q in m1.Keys <==> q in m1;
    }
    RequestsCompose(m0.Keys, m1.Keys, r0, r1, r2, a, b);
  }

  /** The request half of `CallsCompose`, on key sets. */
  lemma RequestsCompose(k0: set<Query>, k1: set<Query>, r0: seq<Query>, r1: seq<Query>, r2: seq<Query>,
                        a: seq<Query>, b: seq<Query>)
    requires forall q :: q in k1 <==> q in k0 || q in a
    requires r1 == r0 + NewRequests(a, k0)
    requires r2 == r1 + NewRequests(b, k1)
    ensures r2 == r0 + NewRequests(a + b, k0)
  {
    NewRequestsAppend(a, b, k0, k1);
    var x, y := NewRequests(a, k0), NewRequests(b, k1);
    assert r2 == (r0 + x) + y == r0 + (x + y);
  }

  /** One step of `NewRequests`: the first call, then the rest from the keys
      cached after it. */
  lemma NewRequestsStep(calls: seq<Query>, cached: set<Query>)
    requires calls != []
    ensures var q := calls[0];
      var next := if q in cached then cached else cached + {q};
      NewRequests(calls, cached)
        == (if q !in cached && Strip(q.text) != [] then [q] else []) + NewRequests(calls[1..], next)
  {
  }

  /** Each request is for a call whose key was not cached and whose text is
      not blank. */
  lemma {:induction false} NewRequestsFresh(calls: seq<Query>, cached: set<Query>)
    ensures forall q :: q in NewRequests(calls, cached) ==> q in calls && q !in cached && Strip(q.text) != []
    decreases |calls|
  {
    if calls != [] {
      var q := calls[0];
      var next := if q in cached then cached else cached + {q};
      NewRequestsStep(calls, cached);
      NewRequestsFresh(calls[1..], next);
      forall k | k in NewRequests(calls[1..], next) ensures k in calls {
        assert k in calls[1..];
      }
    }
  }

  /** No key is requested twice. */
  lemma {:induction false} NewRequestsDistinct(calls: seq<Query>, cached: set<Query>)
    ensures forall i, j :: 0 <= i < j < |NewRequests(calls, cached)| ==>
      NewRequests(calls, cached)[i] != NewRequests(calls, cached)[j]
    decreases |calls|
  {
    if calls != [] {
      var q := calls[0];
      var next := if q in cached then cached else cached + {q};
      NewRequestsStep(calls, cached);
      NewRequestsDistinct(calls[1..], next);
      var rest := NewRequests(calls[1..], next);
      if q !in cached && Strip(q.text) != [] {
        NewRequestsFresh(calls[1..], next);
        var all := [q] + rest;
        forall i, j | 0 <= i < j < |all| ensures all[i] != all[j] {
          assert all[j] == rest[j - 1] && all[j] in rest;
          if i > 0 {
            assert all[i] == rest[i - 1];
          }
        }
      }
    }
  }

  /** Calls whose keys are all cached request nothing. */
  lemma {:induction false} NewRequestsWhenCached(calls: seq<Query>, cached: set<Query>)
    requires forall q :: q in calls ==> q in cached
    ensures NewRequests(calls, cached) == []
    decreases |calls|
  {
    if calls != [] {
      NewRequestsStep(calls, cached);
      forall k | k in calls[1..] ensures k in cached {
        assert k in calls;
      }
      NewRequestsWhenCached(calls[1..], cached);
    }
  }

  /** The cache never maps a blank text to anything but itself. */
  ghost predicate BlankKeysKept(m: map<Query, string>) {
    forall q :: q in m ==> (Strip(q.text) == [] ==> m[q] == q.text)
  }

  /** What the cache and the provider hold at one moment: the cached results,
      the key each provider request since the cache was created was made for,
      and the provider's request log. */
  datatype CacheState = CacheState(entries: map<Query, string>, requested: seq<Query>, sent: seq<Query>)

  /** From `s1` to `s2` the cache only grew: no cached result changed, the
      logs were only appended to, one request was sent per new logged key,
      and every new request was for a key that `s1` did not hold. */
  ghost predicate Grew(s1: CacheState, s2: CacheState) {
    && Extends(s1.entries, s2.entries)
    && s1.requested <= s2.requested
    && s1.sent <= s2.sent
    && |s2.sent| - |s1.sent| == |s2.requested| - |s1.requested|
    && forall k :: |s1.requested| <= k < |s2.requested| ==> s2.requested[k] !in s1.entries
  }

  lemma GrewTransitive(s1: CacheState, s2: CacheState, s3: CacheState)
    requires Grew(s1, s2) && Grew(s2, s3)
    ensures Grew(s1, s3)
  {
    forall k | |s1.requested| <= k < |s3.requested|
      ensures s3.requested[k] !in s1.entries
    {
      if k < |s2.requested| {
        assert s3.requested[k] == s2.requested[k];
      }
    }
  }

  /** The first request logged after `s1`, if any, is for a key `s1` lacks. */
  lemma FirstNewRequest(s1: CacheState, s2: CacheState)
    requires Grew(s1, s2)
    ensures |s1.requested| < |s2.requested| ==> s2.requested[|s1.requested|] !in s1.entries
  {
  }

  /** A stretch of work whose keys were all cached already sends nothing:
      every logged request is for a key the cache now holds, and it holds no
      key it did not hold before. */
  lemma {:induction false} NoRequestWhenCached(s1: CacheState, s2: CacheState)
    requires Grew(s1, s2)
    requires forall k :: 0 <= k < |s2.requested| ==> s2.requested[k] in s2.entries
    requires forall q :: q in s2.entries ==> q in s1.entries
    ensures s2.sent == s1.sent && s2.entries == s1.entries
  {
    FirstNewRequest(s1, s2);
    assert s2.sent == s1.sent[..|s2.sent|];
  }

  /** Request `k` since `base` was made for the excerpt of the key logged
      for it, and that key is cached with `k` as its request. */
  ghost predicate Served(st: CacheState, requestOf: map<Query, nat>, base: nat, k: nat)
    requires k < |st.requested|
  {
    var q := st.requested[k];
    && q in st.entries && q in requestOf && requestOf[q] == k
    && base + k < |st.sent| && st.sent[base + k] == Request(q)
  }

  /** A cached result is what getTranslation computed: a blank text maps to
      itself; any other text maps to the provider's answer to its request,
      or to the text itself when that request failed. */
  ghost predicate Explained(st: CacheState, requestOf: map<Query, nat>, base: nat, oracle: (nat, Query) -> Reply, q: Query)
    requires q in st.entries
  {
    if Strip(q.text) == [] then
      st.entries[q] == q.text
    else
      && q in requestOf && requestOf[q] < |st.requested| && st.requested[requestOf[q]] == q
      && st.entries[q] == Resolve(q.text, oracle(base + requestOf[q], Request(q)))
  }

  /** The cache's invariant: one logged key per request since `base`, each
      request served into the cache, each cached result explained. */
  ghost predicate Consistent(st: CacheState, requestOf: map<Query, nat>, base: nat, oracle: (nat, Query) -> Reply) {
    && |st.sent| == base + |st.requested|
    && (forall k :: 0 <= k < |st.requested| ==> Served(st, requestOf, base, k))
    && (forall q :: q in st.entries ==> Explained(st, requestOf, base, oracle, q))
  }

  /** The log fixes what the provider received after a moment `s0`: when
      request `base + k` is the excerpt of logged key `k`, the requests since
      `s0` are the excerpts of the keys logged since, in the same order. */
  lemma SentFollowsLog(s0: CacheState, s1: CacheState, base: nat, news: seq<Query>)
    requires |s0.sent| == base + |s0.requested| && |s1.sent| == base + |s1.requested|
    requires forall k :: 0 <= k < |s1.requested| ==> s1.sent[base + k] == Request(s1.requested[k])
    requires s0.sent <= s1.sent && s1.requested == s0.requested + news
    ensures s1.sent == s0.sent + Requests(news)
  {
    var n := |s0.sent|;
    var tail := s1.sent[n..];
    forall j | 0 <= j < |news|
      ensures tail[j] == Requests(news)[j]
    {
      var k := |s0.requested| + j;
      assert s1.requested[k] == news[j] && base + k == n + j;
    }
    assert tail == Requests(news);
    assert s1.sent[..n] == s0.sent;
    assert s1.sent == s1.sent[..n] + tail;
  }

  /** Storing a blank text under itself keeps the invariant. */
  lemma BlankMissKeeps(st: CacheState, requestOf: map<Query, nat>, base: nat, oracle: (nat, Query) -> Reply, q: Query)
    requires Consistent(st, requestOf, base, oracle) && q !in st.entries && Strip(q.text) == []
    ensures Consistent(CacheState(st.entries[q := q.text], st.requested, st.sent), requestOf, base, oracle)
  {
    var st' := CacheState(st.entries[q := q.text], st.requested, st.sent);
    forall k | 0 <= k < |st'.requested|
      ensures Served(st', requestOf, base, k)
    {
      assert Served(st, requestOf, base, k);
    }
    forall q' | q' in st'.entries
      ensures Explained(st', requestOf, base, oracle, q')
    {
      if q' != q {
        assert Explained(st, requestOf, base, oracle, q');
      }
    }
  }

  /** After a new request for `q`, every logged request is still served. */
  lemma RequestMissServed(st: CacheState, st': CacheState, requestOf: map<Query, nat>, requestOf': map<Query, nat>,
                          base: nat, q: Query, r: string)
    requires |st.sent| == base + |st.requested| && q !in st.entries
    requires forall k :: 0 <= k < |st.requested| ==> Served(st, requestOf, base, k)
    requires st' == CacheState(st.entries[q := r], st.requested + [q], st.sent + [Request(q)])
    requires requestOf' == requestOf[q := |st.requested|]
    ensures forall k :: 0 <= k < |st'.requested| ==> Served(st', requestOf', base, k)
  {
    forall k | 0 <= k < |st'.requested|
      ensures Served(st', requestOf', base, k)
    {
      if k < |st.requested| {
        assert Served(st, requestOf, base, k);
        var p := st.requested[k];
        assert st'.requested[k] == p && p in st.entries;
        assert requestOf'[p] == requestOf[p];
        assert st'.sent[base + k] == st.sent[base + k];
      }
    }
  }

  /** A result cached before a new request for another key stays explained. */
  lemma OtherStaysExplained(st: CacheState, st': CacheState, requestOf: map<Query, nat>, requestOf': map<Query, nat>,
                            base: nat, oracle: (nat, Query) -> Reply, q: Query, q': Query)
    requires q' in st.entries && q' != q && Explained(st, requestOf, base, oracle, q')
    requires q' in st'.entries && st'.entries[q'] == st.entries[q']
    requires st.requested <= st'.requested
    requires requestOf' == requestOf[q := |st.requested|]
    ensures Explained(st', requestOf', base, oracle, q')
  {
    if Strip(q'.text) != [] {
      var j := requestOf[q'];
      assert j < |st.requested| && st.requested[j] == q';
      assert requestOf'[q'] == j && st'.requested[j] == q';
      assert st'.entries[q'] == Resolve(q'.text, oracle(base + j, Request(q')));
    } else {
      assert st'.entries[q'] == q'.text;
    }
  }

  /** After a new request for `q`, every cached result is still explained. */
  lemma RequestMissExplained(st: CacheState, st': CacheState, requestOf: map<Query, nat>, requestOf': map<Query, nat>,
                             base: nat, oracle: (nat, Query) -> Reply, q: Query)
    requires |st.sent| == base + |st.requested| && q !in st.entries && Strip(q.text) != []
    requires forall q' :: q' in st.entries ==> Explained(st, requestOf, base, oracle, q')
    requires st' == CacheState(st.entries[q := Resolve(q.text, oracle(|st.sent|, Request(q)))],
                               st.requested + [q], st.sent + [Request(q)])
    requires requestOf' == requestOf[q := |st.requested|]
    ensures forall q' :: q' in st'.entries ==> Explained(st', requestOf', base, oracle, q')
  {
    forall q' | q' in st'.entries
      ensures Explained(st', requestOf', base, oracle, q')
    {
      if q' != q {
        OtherStaysExplained(st, st', requestOf, requestOf', base, oracle, q, q');
      } else {
        assert requestOf'[q] == |st.requested| && st'.requested[|st.requested|] == q;
        assert base + requestOf'[q] == |st.sent|;
      }
    }
  }

  /** Storing the result of a new request keeps the invariant. */
  lemma RequestMissKeeps(st: CacheState, requestOf: map<Query, nat>, base: nat, oracle: (nat, Query) -> Reply, q: Query)
    requires Consistent(st, requestOf, base, oracle) && q !in st.entries && Strip(q.text) != []
    ensures var r := Resolve(q.text, oracle(|st.sent|, Request(q)));
      Consistent(CacheState(st.entries[q := r], st.requested + [q], st.sent + [Request(q)]),
                 requestOf[q := |st.requested|], base, oracle)
  {
    var r := Resolve(q.text, oracle(|st.sent|, Request(q)));
    var st' := CacheState(st.entries[q := r], st.requested + [q], st.sent + [Request(q)]);
    var requestOf' := requestOf[q := |st.requested|];
    RequestMissServed(st, st', requestOf, requestOf', base, q, r);
    RequestMissExplained(st, st', requestOf, requestOf', base, oracle, q);
  }

  /** The `@cache.memoize()` store of getTranslation, without its size-bound
      eviction. It is tied to the one DeepL client of the process. */
  class TranslationCache {
    const translator: Translator
    var entries: map<Query, string>
    /** The length of the provider's log when the cache was created. */
    ghost const base: nat
    /** The key each provider request since then was made for. */
    ghost var requested: seq<Query>
    /** For each non-blank cached key, the position of its request. */
    ghost var requestOf: map<Query, nat>

    ghost function Snapshot(): CacheState
      reads this, translator
    {
      CacheState(entries, requested, translator.sent)
    }

    ghost predicate Valid()
      reads this, translator
    {
      Consistent(Snapshot(), requestOf, base, translator.oracle)
    }

    constructor (translator: Translator)
      ensures Valid() && this.translator == translator && entries == map[]
      ensures requested == [] && base == |translator.sent|
    {
      this.translator := translator;
      entries := map[];
      base := |translator.sent|;
      requested := [];
      requestOf := map[];
    }

    /** The cache never maps a blank text to anything but itself. */
    lemma ValidKeepsBlank()
      requires Valid()
      ensures BlankKeysKept(entries)
    {
      forall q | q in entries && Strip(q.text) == []
        ensures entries[q] == q.text
      {
        assert Explained(Snapshot(), requestOf, base, translator.oracle, q);
      }
    }

    /** What a cached result is: a blank text is cached as itself; any other
        text holds the provider's answer to a request for its excerpt that is
        in the log, or the text itself when that request failed. */
    lemma CachedResultExplained(q: Query)
      requires Valid() && q in entries
      ensures Strip(q.text) == [] ==> entries[q] == q.text
      ensures Strip(q.text) != [] ==>
        && q in requestOf && base + requestOf[q] < |translator.sent|
        && translator.sent[base + requestOf[q]] == Request(q)
        && entries[q] == Resolve(q.text, translator.oracle(base + requestOf[q], Request(q)))
    {
      assert Explained(Snapshot(), requestOf, base, translator.oracle, q);
      if Strip(q.text) != [] {
        assert Served(Snapshot(), requestOf, base, requestOf[q]);
      }
    }

    /** Every request logged since the cache was created is for a key it
        holds, and request `base + k` is the excerpt of logged key `k`. */
    lemma ValidLogged()
      requires Valid()
      ensures |translator.sent| == base + |requested|
      ensures forall k :: 0 <= k < |requested| ==> requested[k] in entries
      ensures forall k :: 0 <= k < |requested| ==> translator.sent[base + k] == Request(requested[k])
    {
      forall k | 0 <= k < |requested|
        ensures requested[k] in entries && translator.sent[base + k] == Request(requested[k])
      {
        assert Served(Snapshot(), requestOf, base, k);
      }
    }

    /** The provider received, since a moment `s0` of this cache, the
        excerpts of the keys logged since, in the same order. */
    lemma SentSince(s0: CacheState, news: seq<Query>)
      requires Valid() && |s0.sent| == base + |s0.requested|
      requires s0.sent <= translator.sent && requested == s0.requested + news
      ensures translator.sent == s0.sent + Requests(news)
    {
      ValidLogged();
      SentFollowsLog(s0, Snapshot(), base, news);
    }

    /** The memoised getTranslation: a hit returns the stored result and
        makes no request; a miss computes the result, stores it under the
        original text and language, and returns it. Results that fell back
        to the original text are stored like any other. */
    method GetTranslation(q: Query) returns (r: string)
      requires Valid()
      modifies this, translator
      ensures Valid()
      ensures q in entries && entries[q] == r
      ensures Gained(old(entries), entries, [q])
      ensures requested == old(requested) + NewRequests([q], old(entries).Keys)
      ensures q in old(entries) ==> r == old(entries[q]) && Snapshot() == old(Snapshot())
      ensures q !in old(entries) ==>
        && entries == old(entries)[q := r]
        && Computes(translator, old(translator.sent), q, r)
        && requested == old(requested) + (if Strip(q.text) == [] then [] else [q])
      ensures Grew(old(Snapshot()), Snapshot())
    {
      assert [q][1..] == [];
      if q in entries {
        return entries[q];
      }
      ghost var st := Snapshot();
      if Strip(q.text) == [] {
        BlankMissKeeps(st, requestOf, base, translator.oracle, q);
      } else {
        RequestMissKeeps(st, requestOf, base, translator.oracle, q);
        requested := requested + [q];
        requestOf := requestOf[q := |st.requested|];
      }
      r := ComputeTranslation(translator, q);
      entries := entries[q := r];
    }
  }

  /** A second call with the same arguments returns the same result, and the
      two calls together make at most one request, for the excerpt. */
  method TranslateTwice(cache: TranslationCache, q: Query) returns (r1: string, r2: string)
    requires cache.Valid()
    modifies cache, cache.translator
    ensures cache.Valid()
    ensures r1 == r2
    ensures cache.translator.sent == old(cache.translator.sent)
         || cache.translator.sent == old(cache.translator.sent) + [Request(q)]
  {
    r1 := cache.GetTranslation(q);
    r2 := cache.GetTranslation(q);
  }
}
