/** The key-value service in front of the store: how limits, `more` and transactions map onto it. */
module KvService {
  import opened Wrappers
  import opened Bytes
  import opened KeyIndex
  import opened History
  import opened Ranges
  import opened Stores
  import opened Integers

  // ---------------------------------------------------------------- range

  function LimitOf(countOnly: bool, limit: i64): Option<nat> {
    if countOnly then Some(0) else if limit == 0 then None else Some(AsUnsigned(limit))
  }

  datatype RangeResponse = RangeResponse(revision: int, count: int, kvs: seq<KeyValue>, more: bool)

  /** The request is answered: its revision and its range are taken, and the store does not panic. */
  ghost predicate Answered(store: Store, key: Key, rangeEnd: Key, revision: int)
    reads store
  {
    && store.Takes(revision) && WindowOf(key, rangeEnd).Ok?
    && !store.RangePanics(key, rangeEnd) && (revision < 0 ==> store.Visits(key, rangeEnd) == [])
  }

  /**
    What a response says, in terms of the history alone: pairs in ascending order, none when only counting, no more than
    a positive limit. For a range that one prefix covers, keys are held back only by counting or by the limit, where a
    negative one is a huge one, and only the last ones; `more` tells of a limit that holds back, or is negative.
   */
  ghost predicate RangeMeans(s: State, key: Key, rangeEnd: Key, at: nat, limit: i64, countOnly: bool,
                             r: RangeResponse)
  {
    && r.revision == |s.history|
    && Sound(s, key, rangeEnd, at, None, r.kvs)
    && (countOnly ==> r.kvs == [] && !r.more)
    && (!countOnly && limit > 0 ==> |r.kvs| <= limit)
    && (!countOnly && limit < 0 ==> r.more)
    && (!countOnly && limit == 0 ==> !r.more)
    && (Covers(key, rangeEnd) ==>
          && (forall k :: HeldBack(s, key, rangeEnd, at, r.kvs, k) ==>
                && (countOnly || (limit > 0 && |r.kvs| == limit && r.more) || (limit < 0 && |r.kvs| == TWO_64 + limit))
                && r.count > |r.kvs| && forall i :: 0 <= i < |r.kvs| ==> Bytes.Less(r.kvs[i].key, k))
          && ((forall k :: !HeldBack(s, key, rangeEnd, at, r.kvs, k)) ==>
                r.count == |r.kvs| && (!countOnly && limit >= 0 ==> !r.more)))
  }

  lemma RangeIsRight(s: State, key: Key, rangeEnd: Key, at: nat, limit: i64, countOnly: bool, r: RangeResponse)
    requires r.revision == |s.history| && r.count >= 0
    requires Sound(s, key, rangeEnd, at, LimitOf(countOnly, limit), r.kvs)
    requires Covers(key, rangeEnd) ==>
               Whole(s, key, rangeEnd, at, LimitOf(countOnly, limit), r.kvs, r.count)
    requires r.more == (!countOnly && limit != 0 && r.count > limit)
    ensures RangeMeans(s, key, rangeEnd, at, limit, countOnly, r)
  {
  }

  method Range(store: Store, key: Key, rangeEnd: Key, revision: int, limit: i64, countOnly: bool)
    returns (r: Result<RangeResponse, RangeError>)
    requires store.Valid()
    ensures r.Ok? <==> Answered(store, key, rangeEnd, revision)
    ensures r.Ok? ==>
              && r.value.revision == |store.State().history|
              && 0 <= r.value.count
              && Answers(store.State(), store.Visits(key, rangeEnd),
                         if revision <= 0 then |store.State().history| else revision,
                         LimitOf(countOnly, limit), r.value.kvs, r.value.count)
              && r.value.more == (!countOnly && limit != 0 && r.value.count > limit)
    ensures r.Ok? ==>
              RangeMeans(store.State(), key, rangeEnd, if revision <= 0 then |store.State().history| else revision,
                         limit, countOnly, r.value)
  {
    var lim := LimitOf(countOnly, limit);
    var result := store.Range(key, rangeEnd, revision, lim);
    if result.Err? {
      return Err(result.error);
    }
    var more := if countOnly || lim.None? then false else result.value.count > AsSigned(lim.value);
    var response := RangeResponse(result.value.latestRev, result.value.count, result.value.kvs, more);
    RangeIsRight(store.State(), key, rangeEnd, if revision <= 0 then |store.State().history| else revision, limit,
                 countOnly, response);
    return Ok(response);
  }

  /**
    The response for n live keys: all of them or the first `limit`, none when only counting, and `more` exactly when
    some were held back. A negative limit wraps to a huge one, so nothing is held back, yet `more` is set.
   */
  lemma LimitedRange(s: State, keys: seq<Key>, r: nat, countOnly: bool, limit: i64, kvs: seq<KeyValue>, count: nat)
    requires r <= |s.history| && |keys| < TWO_63 && Answers(s, keys, r, LimitOf(countOnly, limit), kvs, count)
    ensures var live := Live(s, keys, r);
            && kvs == Rows(s, live[..if countOnly then 0 else if 0 < limit < |live| then limit else |live|], r)
            && (!countOnly && limit >= 0 ==>
                  (limit != 0 && count > limit <==> |kvs| < |live|))
            && (!countOnly && limit < 0 ==> |kvs| == |live| && count > limit)
            && (countOnly ==> (count > 0 <==> |live| > 0))
  {
    LiveMembers(s, keys, r);
  }

  // ---------------------------------------------------------------- transactions

  datatype Target = ModRevision(rev: int) | Version(version: int) | OtherTarget

  datatype CompareResult = Equal | Greater | Less | NotEqual

  /** A comparison of one key; the service does not look at the operator. */
  datatype Compare = Compare(key: Key, result: CompareResult, target: Option<Target>)

  datatype Request =
    | RequestPut(key: Key, value: Data)
    | RequestDeleteRange(key: Key, rangeEnd: Key)
    | RequestRange(key: Key, rangeEnd: Key)
    | OtherRequest

  datatype TxnRequest =
    TxnRequest(compare: seq<Compare>, success: seq<Option<Request>>, failure: seq<Option<Request>>)

  datatype TxnResponse = TxnResponse(succeeded: bool, revision: int, failureKvs: Option<seq<KeyValue>>)

  datatype TxnError = InvalidArgument | TxnPanicked

  /** The failure branch is missing, or reads the compared key. */
  predicate FailureReads(req: TxnRequest)
    requires |req.compare| == 1
  {
    && |req.failure| <= 1
    && (|req.failure| == 1 && req.failure[0].Some? ==> req.failure[0].value == RequestRange(req.compare[0].key, []))
  }

  predicate Targeted(req: TxnRequest) {
    |req.compare| == 1 && req.compare[0].target.Some? && !req.compare[0].target.value.OtherTarget?
  }

  /** The transactions that are taken: one comparison of a revision or version of a key, one write of that key. */
  predicate Supported(req: TxnRequest) {
    && Targeted(req) && |req.success| == 1 && FailureReads(req) && req.success[0].Some?
    && var write := req.success[0].value;
       && (write.RequestPut? || (write.RequestDeleteRange? && write.rangeEnd == []))
       && write.key == req.compare[0].key != []
  }

  /** The requests on which the service panics: a comparison without a number, or a write that is not given. */
  predicate Panics(req: TxnRequest) {
    || (|req.compare| == 1 && req.compare[0].target.None?)
    || (Targeted(req) && |req.success| == 1 && FailureReads(req) && req.success[0].None?)
  }

  function RequirementOf(t: Target): SetRequired {
    match t
    case ModRevision(m) => SetRequired(Some(m), None)
    case Version(v) => SetRequired(None, Some(v))
    case OtherTarget => SetRequired(None, None)
  }

  /** The conditional write that a supported transaction is. */
  function OpOf(req: TxnRequest): Op
    requires Supported(req)
  {
    var required := Some(RequirementOf(req.compare[0].target.value));
    var value := match req.success[0].value case RequestPut(_, v) => Some(v) case _ => None;
    Op.Set(req.compare[0].key, value, RequiredRevision(required), RequiredVersion(required))
  }

  /** What a supported transaction does and answers, in terms of the history alone. */
  ghost predicate TxnMeans(s: State, req: TxnRequest, r: TxnResponse, s': State)
    requires Supported(req)
  {
    var key, write := req.compare[0].key, req.success[0].value;
    && (r.succeeded ==>
          && r.revision == |s.history| + 1 && r.failureKvs.None?
          && s' == State(s.history + [Write(key, if write.RequestPut? then Some(write.value) else None)], s.compacted))
    && (!r.succeeded ==>
          && s' == s && r.revision == |s.history| && (r.failureKvs.None? <==> req.failure == [])
          && (r.failureKvs.Some? ==>
                if r.failureKvs.value == [] then forall w :: !LiveNow(s.history, key, w)
                else
                  && |r.failureKvs.value| == 1
                  && exists w :: LiveNow(s.history, key, w) && Tells(s.history, key, w, r.failureKvs.value[0])))
    && (forall rev, version {:trigger Shows(s.history, key, rev, version)} :: Shows(s.history, key, rev, version) ==>
          (r.succeeded <==>
             && (write.RequestPut? || rev != 0)
             && match req.compare[0].target.value
                case ModRevision(m) => m < 0 || m == rev
                case Version(v) => v < 0 || v == version
                case OtherTarget => true))
  }

  /** The response that the store's answer becomes. */
  function ResponseTo(req: TxnRequest, result: SetResult): TxnResponse {
    match result
    case Ok(rev) => TxnResponse(true, rev, None)
    case Err((rev, kv)) =>
      TxnResponse(false, rev, if req.failure == [] then None else Some(if kv.Some? then [kv.value] else []))
  }

  lemma TxnIsRight(s: State, req: TxnRequest, value: Option<Data>, result: SetResult, s': State)
    requires Supported(req)
    requires value == if req.success[0].value.RequestPut? then Some(req.success[0].value.value) else None
    requires SetMeans(s, req.compare[0].key, value, Some(RequirementOf(req.compare[0].target.value)), result, s')
    ensures TxnMeans(s, req, ResponseTo(req, result), s')
  {
  }

  /** Carries out a supported transaction. */
  method Execute(store: Store, req: TxnRequest) returns (r: TxnResponse)
    requires store.Valid() && Supported(req)
    modifies store, store.treeMap.Values, store.valuesByRevision, store.valuesByRevision.blocks
    ensures store.Valid()
    ensures store.State() == Step(old(store.State()), OpOf(req))
    ensures r.succeeded == Accepts(old(store.State()).history, OpOf(req))
    ensures TxnMeans(old(store.State()), req, r, store.State())
  {
    var required := Some(RequirementOf(req.compare[0].target.value));
    var key, write := req.compare[0].key, req.success[0].value;
    var value := if write.RequestPut? then Some(write.value) else None;
    var result := store.Set(key, value, required);
    TxnIsRight(old(store.State()), req, value, result, store.State());
    return ResponseTo(req, result);
  }

  /** A supported transaction is one conditional write; anything else changes nothing. */
  method Txn(store: Store, req: TxnRequest) returns (r: Result<TxnResponse, TxnError>)
    requires store.Valid()
    modifies store, store.treeMap.Values, store.valuesByRevision, store.valuesByRevision.blocks
    ensures store.Valid() && (r.Ok? <==> Supported(req)) && (r == Err(TxnPanicked) <==> Panics(req))
    ensures r.Err? ==> store.State() == old(store.State())
    ensures Supported(req) ==>
              && store.State() == Step(old(store.State()), OpOf(req))
              && r.value.succeeded == Accepts(old(store.State()).history, OpOf(req))
              && TxnMeans(old(store.State()), req, r.value, store.State())
  {
    if |req.compare| != 1 {
      return Err(InvalidArgument);
    }
    var target := req.compare[0].target;
    if target.None? {
      return Err(TxnPanicked);
    }
    if target.value.OtherTarget? || |req.success| != 1 || |req.failure| > 1 {
      return Err(InvalidArgument);
    }
    var key := req.compare[0].key;
    if req.failure != [] && req.failure[0].Some? {
      var op := req.failure[0].value;
      if !op.RequestRange? || op.key != key || op.rangeEnd != [] {
        return Err(InvalidArgument);
      }
    }
    if req.success[0].None? {
      return Err(TxnPanicked);
    }
    match req.success[0].value {
      case RequestPut(k, v) =>
        if k == [] || k != key {
          return Err(InvalidArgument);
        }
      case RequestDeleteRange(k, end) =>
        if k == [] || end != [] || k != key {
          return Err(InvalidArgument);
        }
      case _ =>
        return Err(InvalidArgument);
    }
    var response := Execute(store, req);
    return Ok(response);
  }

  /** The request compares one number of a key and writes that key, reading it if that fails or doing nothing. */
  ghost predicate Shaped(req: TxnRequest, key: Key, result: CompareResult, target: Target, write: Request) {
    && req.compare == [Compare(key, result, Some(target))] && req.success == [Some(write)] && key != []
    && (target.ModRevision? || target.Version?)
    && (write == RequestDeleteRange(key, []) || (write.RequestPut? && write == RequestPut(key, write.value)))
    && (req.failure == [] || req.failure == [None] || req.failure == [Some(RequestRange(key, []))])
  }

  lemma FailureShapes(req: TxnRequest)
    requires |req.compare| == 1 && FailureReads(req)
    ensures || req.failure == [] || req.failure == [None]
            || req.failure == [Some(RequestRange(req.compare[0].key, []))]
  {
    if |req.failure| == 1 {
      if req.failure[0].None? {
        assert req.failure == [None];
      } else {
        assert req.failure == [Some(RequestRange(req.compare[0].key, []))];
      }
    }
  }

  /** Exactly which requests are taken. */
  lemma SupportedIff(req: TxnRequest)
    ensures Supported(req) <==> exists key, result, target, write :: Shaped(req, key, result, target, write)
  {
    if Supported(req) {
      var c := req.compare[0];
      FailureShapes(req);
      assert Shaped(req, c.key, c.result, c.target.value, req.success[0].value);
    }
  }

  /** Exactly which requests make the service panic. */
  lemma PanicsIff(req: TxnRequest)
    ensures Panics(req) <==>
              exists key, result, target ::
                && req.compare == [Compare(key, result, target)]
                && (target.None? ||
                    (&& !target.value.OtherTarget? && req.success == [None]
                     && (req.failure == [] || req.failure == [None] || req.failure == [Some(RequestRange(key, []))])))
  {
    if Panics(req) {
      var c := req.compare[0];
      assert req.compare == [Compare(c.key, c.result, c.target)];
      if c.target.Some? {
        assert req.success == [None];
        FailureShapes(req);
      }
    }
  }

  /** The key's visible revision or version, whichever the comparison is about. */
  function Visible(h: Log, key: Key, t: Target): int {
    match t
    case ModRevision(_) => VisibleRevision(h, key)
    case Version(_) => VisibleVersion(h, key)
    case OtherTarget => 0
  }

  function Named(t: Target): int {
    match t case ModRevision(m) => m case Version(v) => v case OtherTarget => -1
  }

  /** What the operator says of the visible number and the one that is named. */
  predicate Compares(result: CompareResult, visible: int, named: int) {
    match result
    case Equal => visible == named
    case Greater => visible > named
    case Less => visible < named
    case NotEqual => visible != named
  }

  /** The comparison holds. */
  predicate Holds(h: Log, req: TxnRequest)
    requires Supported(req)
  {
    var c := req.compare[0];
    Compares(c.result, Visible(h, c.key, c.target.value), Named(c.target.value))
  }

  /** For a key that is live or a write that is a put: the service tests for equality, and not at all below 0. */
  predicate FollowedByWrite(result: CompareResult, visible: int, named: int) {
    match result
    case Equal => named >= 0
    case Greater => named < 0 || visible < named
    case Less => named >= 0 && visible > named
    case NotEqual => named < 0
  }

  /** Deleting an absent key never succeeds. */
  predicate FollowedByAbsentDelete(result: CompareResult, named: int) {
    match result
    case Equal => named != 0
    case Greater => named >= 0
    case Less => named <= 0
    case NotEqual => named == 0
  }

  predicate DeletesAbsent(h: Log, req: TxnRequest)
    requires Supported(req)
  {
    req.success[0].value.RequestDeleteRange? && Current(h, req.compare[0].key).None?
  }

  /** Supported transactions succeed when the named number is negative or the visible one, except on absent deletes. */
  lemma AcceptsIff(h: Log, req: TxnRequest)
    requires Supported(req)
    ensures var t := req.compare[0].target.value;
            && Visible(h, req.compare[0].key, t) >= 0
            && (DeletesAbsent(h, req) ==> Visible(h, req.compare[0].key, t) == 0)
            && (Accepts(h, OpOf(req)) <==>
                  !DeletesAbsent(h, req) && (Named(t) < 0 || Named(t) == Visible(h, req.compare[0].key, t)))
  {
    RevisionsArePositive(h, req.compare[0].key);
  }

  /**
    A transaction is meant to succeed exactly when its comparison holds. For each operator, the condition on the visible
    and the named number under which it does.
   */
  lemma TxnFollowsCompareIff(h: Log, req: TxnRequest)
    requires Supported(req)
    ensures var c := req.compare[0];
            (Accepts(h, OpOf(req)) <==> Holds(h, req)) <==>
              if DeletesAbsent(h, req) then FollowedByAbsentDelete(c.result, Named(c.target.value))
              else FollowedByWrite(c.result, Visible(h, c.key, c.target.value), Named(c.target.value))
  {
    AcceptsIff(h, req);
  }

  /** On an empty store, a put of a key whose revision must differ from 0 goes through although it is 0. */
  lemma NotEqualIsIgnored(key: Key, d: Data) returns (req: TxnRequest)
    requires key != []
    ensures req == TxnRequest([Compare(key, NotEqual, Some(ModRevision(0)))], [Some(RequestPut(key, d))], [])
    ensures Supported(req) && !Holds([], req) && Accepts([], OpOf(req))
  {
    req := TxnRequest([Compare(key, NotEqual, Some(ModRevision(0)))], [Some(RequestPut(key, d))], []);
    AcceptsIff([], req);
  }
}
