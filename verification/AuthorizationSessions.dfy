/**
 The cache of authorization results as a step system on values. A cached result refers to the context object of the
 call that computed it; a later call under the same key takes the result and adds that object's properties, as they
 are by then, to its own context. `Ref` is the type of context objects: what matters of them is which are the same.
*/
module AuthorizationSessions {
  import opened Strings
  import opened DynamicAuthorizations

  /** What the access-control library decides on a request: the verdict, the fields, and the conditions it runs. */
  datatype Decision = Decision(granted: bool, fields: seq<string>, conditions: seq<Args>)

  datatype Request = Request(roles: seq<string>, resource: string, action: string, data: Data)

  type Policy = Request -> Decision

  /** A condition function as the access-control library is given it: what it makes of a context. */
  type Condition = (Data, Args) -> Data

  /** The uncached evaluation of a request, and what it makes of the context. */
  function Answer(policy: Policy, r: Request): (bool, seq<string>) {
    (policy(r).granted, policy(r).fields)
  }

  function RunAll(condition: Condition, d: Data, list: seq<Args>): Data {
    if list == [] then d else condition(RunAll(condition, d, list[..|list| - 1]), list[|list| - 1])
  }

  function Outcome(policy: Policy, condition: Condition, r: Request): Data {
    RunAll(condition, r.data, policy(r).conditions)
  }

  /** A condition that never removes a property. */
  ghost predicate Keeping(condition: Condition) {
    forall d: Data, args: Args, key: Property :: key in d ==> key in condition(d, args)
  }

  /** The condition that the server registers. */
  ghost predicate IsDynamic(condition: Condition) {
    forall d: Data, args: Args :: condition(d, args) == Conditioned(d, args)
  }

  lemma {:induction false} RunAllKeeps(condition: Condition, d: Data, list: seq<Args>, key: Property)
    requires Keeping(condition) && key in d
    ensures key in RunAll(condition, d, list)
  {
    if list != [] {
      RunAllKeeps(condition, d, list[..|list| - 1], key);
    }
  }

  lemma {:induction false} RunAllDynamic(condition: Condition, d: Data, list: seq<Args>)
    requires IsDynamic(condition)
    ensures RunAll(condition, d, list) == ConditionedAll(d, list)
  {
    if list != [] {
      RunAllDynamic(condition, d, list[..|list| - 1]);
    }
  }

  lemma DynamicKeeps(condition: Condition)
    requires IsDynamic(condition)
    ensures Keeping(condition)
  {
    forall d: Data, args: Args, key: Property | key in d ensures key in condition(d, args) {
      assert ConditionedAll(d, []) == d;
      NoneRemoved(d, [args], key);
    }
  }

  /** The cache key. */
  function AuthID(stringify: Data -> string, r: Request): string {
    Join(r.roles, ',') + "~" + r.resource + "~" + r.action + "~" + stringify(r.data) + "}"
  }

  /** Names without the separators. */
  predicate PlainNames(r: Request) {
    && (forall role :: role in r.roles ==> ',' !in role && '~' !in role)
    && '~' !in r.resource && '~' !in r.action
  }

  ghost predicate Injective(stringify: Data -> string) {
    forall d: Data, e: Data :: stringify(d) == stringify(e) ==> d == e
  }

  /** The same request, but that the empty list of roles stands for the list of one empty name. */
  predicate Alike(a: Request, b: Request) {
    && RolesAlike(a.roles, b.roles)
    && a.resource == b.resource && a.action == b.action && a.data == b.data
  }

  predicate RolesAlike(a: seq<string>, b: seq<string>) {
    a == b || (a == [] && b == [""]) || (a == [""] && b == [])
  }

  lemma {:induction false} JoinPlain(roles: seq<string>)
    requires forall role :: role in roles ==> '~' !in role
    ensures '~' !in Join(roles, ',')
  {
    if |roles| > 1 {
      JoinPlain(roles[1..]);
    }
  }

  /** Role lists print alike exactly when they are the same, or are the empty list and the list of one empty name. */
  lemma RolesPrintAlike(a: seq<string>, b: seq<string>)
    requires forall role :: role in a || role in b ==> ',' !in role
    ensures Join(a, ',') == Join(b, ',') <==> RolesAlike(a, b)
  {
    if a != [] {
      SplitJoin(a, ',');
    }
    if b != [] {
      SplitJoin(b, ',');
    }
  }

  /** Requests whose names are plain share a cache key exactly when they agree in roles, resource, action and context
      content; but for the two lists of roles that print alike. */
  lemma SameKeyExactlyWhenAlike(stringify: Data -> string, a: Request, b: Request)
    requires Injective(stringify) && PlainNames(a) && PlainNames(b)
    ensures AuthID(stringify, a) == AuthID(stringify, b) <==> Alike(a, b)
  {
    RolesPrintAlike(a.roles, b.roles);
    if AuthID(stringify, a) == AuthID(stringify, b) {
      JoinPlain(a.roles);
      JoinPlain(b.roles);
      KeyCut(Join(a.roles, ','), a.resource, a.action, stringify(a.data),
        Join(b.roles, ','), b.resource, b.action, stringify(b.data));
    }
  }

  lemma KeyCut(a1: string, a2: string, a3: string, a4: string, b1: string, b2: string, b3: string, b4: string)
    requires '~' !in a1 && '~' !in a2 && '~' !in a3 && '~' !in b1 && '~' !in b2 && '~' !in b3
    requires a1 + "~" + a2 + "~" + a3 + "~" + a4 + "}" == b1 + "~" + b2 + "~" + b3 + "~" + b4 + "}"
    ensures a1 == b1 && a2 == b2 && a3 == b3 && a4 == b4
  {
    var a, b := a3 + "~" + (a4 + "}"), b3 + "~" + (b4 + "}");
    assert a1 + "~" + a2 + "~" + a3 + "~" + a4 + "}" == a1 + "~" + (a2 + "~" + a);
    assert b1 + "~" + b2 + "~" + b3 + "~" + b4 + "}" == b1 + "~" + (b2 + "~" + b);
    CutUnique(a1, a2 + "~" + a, b1, b2 + "~" + b, '~');
    CutUnique(a2, a, b2, b, '~');
    CutUnique(a3, a4 + "}", b3, b4 + "}", '~');
    assert a4 == (a4 + "}")[..|a4 + "}"| - 1] && b4 == (b4 + "}")[..|b4 + "}"| - 1];
  }

  /** The access-control library with the conditions registered at it, and the printing of contexts. */
  datatype System = System(policy: Policy, stringify: Data -> string, condition: Condition)

  datatype Result<Ref> = Result(authorized: bool, fields: seq<string>, context: Ref)

  datatype Call<Ref> = Call(roles: seq<string>, resource: string, action: string, context: Ref)

  /** What is in the context objects, the cached results, and the request that was first made under each key. */
  datatype Session<Ref> = Session(data: map<Ref, Data>, cache: map<string, Result<Ref>>, origin: map<string, Request>)

  /** Contexts of cached results are known, and keys are those of the requests first made under them. */
  ghost predicate Closed<Ref>(sys: System, s: Session<Ref>) {
    && s.origin.Keys == s.cache.Keys
    && forall id :: id in s.cache ==> s.cache[id].context in s.data && AuthID(sys.stringify, s.origin[id]) == id
  }

  /** The request that a call makes at the time. */
  ghost function RequestOf<Ref>(s: Session<Ref>, call: Call<Ref>): Request
    requires call.context in s.data
  {
    Request(call.roles, call.resource, call.action, s.data[call.context])
  }

  ghost function Computed<Ref>(sys: System, r: Request, context: Ref): Result<Ref> {
    Result(sys.policy(r).granted, sys.policy(r).fields, context)
  }

  /** The result that a call returns. */
  ghost function Reply<Ref>(sys: System, s: Session<Ref>, call: Call<Ref>): Result<Ref>
    requires call.context in s.data
  {
    var r := RequestOf(s, call);
    var id := AuthID(sys.stringify, r);
    if id in s.cache then s.cache[id] else Computed(sys, r, call.context)
  }

  /** The session after a call. */
  ghost function Ask<Ref>(sys: System, s: Session<Ref>, call: Call<Ref>): Session<Ref>
    requires Closed(sys, s) && call.context in s.data
  {
    var r := RequestOf(s, call);
    var id := AuthID(sys.stringify, r);
    if id in s.cache then s.(data := s.data[call.context := r.data + s.data[s.cache[id].context]])
    else
      Session(s.data[call.context := Outcome(sys.policy, sys.condition, r)],
        s.cache[id := Computed(sys, r, call.context)], s.origin[id := r])
  }

  lemma AskKeepsClosed<Ref>(sys: System, s: Session<Ref>, call: Call<Ref>)
    requires Closed(sys, s) && call.context in s.data
    ensures Closed(sys, Ask(sys, s, call)) && Ask(sys, s, call).data.Keys == s.data.Keys
  {
    var t := Ask(sys, s, call);
    assert t.data.Keys == s.data.Keys;
    var id := AuthID(sys.stringify, RequestOf(s, call));
    if id !in s.cache {
      StoreKeepsClosed(sys, s, t.data, id, Computed(sys, RequestOf(s, call), call.context), RequestOf(s, call));
    }
  }

  lemma StoreKeepsClosed<Ref>(sys: System, s: Session<Ref>, data: map<Ref, Data>, id: string, result: Result<Ref>,
      r: Request)
    requires Closed(sys, s) && data.Keys == s.data.Keys && AuthID(sys.stringify, r) == id && result.context in s.data
    ensures Closed(sys, Session(data, s.cache[id := result], s.origin[id := r]))
  {
  }

  /** A cached result is the uncached evaluation of the request first made under its key, and so is what the context
      that it refers to holds. */
  ghost predicate RightAt<Ref>(sys: System, s: Session<Ref>, id: string)
    requires Closed(sys, s) && id in s.cache
  {
    && Verdict(s.cache[id]) == Answer(sys.policy, s.origin[id])
    && s.data[s.cache[id].context] == Outcome(sys.policy, sys.condition, s.origin[id])
  }

  function Verdict<Ref>(result: Result<Ref>): (bool, seq<string>) {
    (result.authorized, result.fields)
  }

  ghost predicate Right<Ref>(sys: System, s: Session<Ref>) {
    Closed(sys, s) && forall id :: id in s.cache ==> RightAt(sys, s, id)
  }

  /** The request whose evaluation answers another: the one first made under its key. */
  ghost function First<Ref>(sys: System, s: Session<Ref>, r: Request): Request
    requires Closed(sys, s)
  {
    var id := AuthID(sys.stringify, r);
    if id in s.cache then s.origin[id] else r
  }

  /** Some cached result refers to the context. */
  ghost predicate Refers<Ref>(s: Session<Ref>, context: Ref) {
    exists id :: id in s.cache && s.cache[id].context == context
  }

  /** The next request equal to the one first made under the key is left with another context than the uncached
      evaluation leaves. */
  ghost predicate Misserved<Ref>(sys: System, s: Session<Ref>, id: string)
    requires Closed(sys, s) && id in s.cache
  {
    s.origin[id].data + s.data[s.cache[id].context] != Outcome(sys.policy, sys.condition, s.origin[id])
  }

  ghost predicate SomeMisserved<Ref>(sys: System, s: Session<Ref>) {
    Closed(sys, s) && exists id :: id in s.cache && Misserved(sys, s, id)
  }

  /** Which is what that says. */
  lemma MisservedExactlyWhenAsked<Ref>(sys: System, s: Session<Ref>, id: string, call: Call<Ref>)
    requires Closed(sys, s) && id in s.cache && call.context in s.data && RequestOf(s, call) == s.origin[id]
    ensures Misserved(sys, s, id) <==>
      Ask(sys, s, call).data[call.context] != Outcome(sys.policy, sys.condition, RequestOf(s, call))
  {
  }

  lemma OutcomeGrows(sys: System, r: Request)
    requires Keeping(sys.condition)
    ensures r.data.Keys <= Outcome(sys.policy, sys.condition, r).Keys
    ensures r.data + Outcome(sys.policy, sys.condition, r) == Outcome(sys.policy, sys.condition, r)
  {
    forall key | key in r.data ensures key in Outcome(sys.policy, sys.condition, r) {
      RunAllKeeps(sys.condition, r.data, sys.policy(r).conditions, key);
    }
  }

  /** For any names at all: a call is answered as the uncached evaluation of the request first made under its key, and
      what that made of its context is added to the caller's. */
  lemma AskAnswers<Ref>(sys: System, s: Session<Ref>, call: Call<Ref>)
    requires Right(sys, s) && Keeping(sys.condition) && call.context in s.data
    ensures var r := RequestOf(s, call); var first := First(sys, s, r);
      && Verdict(Reply(sys, s, call)) == Answer(sys.policy, first)
      && Ask(sys, s, call).data
           == s.data[call.context := r.data + Outcome(sys.policy, sys.condition, first)]
  {
    var r := RequestOf(s, call);
    var id := AuthID(sys.stringify, r);
    if id in s.cache {
      assert RightAt(sys, s, id);
    } else {
      OutcomeGrows(sys, r);
    }
  }

  /** A call that finds nothing under its key leaves its own context object there: later calls under the key return the
      very same result, and add to their contexts what is in that object by then. */
  lemma ResultIsShared<Ref>(sys: System, s: Session<Ref>, call: Call<Ref>, later: Call<Ref>)
    requires Closed(sys, s) && call.context in s.data && later.context in s.data
    requires AuthID(sys.stringify, RequestOf(s, call)) !in s.cache
    requires Closed(sys, Ask(sys, s, call))
    requires AuthID(sys.stringify, RequestOf(Ask(sys, s, call), later)) == AuthID(sys.stringify, RequestOf(s, call))
    ensures var t := Ask(sys, s, call);
      && Reply(sys, t, later) == Reply(sys, s, call) && Reply(sys, s, call).context == call.context
      && Ask(sys, t, later).data
           == t.data[later.context := t.data[later.context] + t.data[call.context]]
      && Ask(sys, t, later).cache == t.cache
  {
  }

  /** A context that a result refers to and that comes to hold something else is not what the next equal request
      should be given. */
  lemma ChangedIsMisserved<Ref>(sys: System, s: Session<Ref>, t: Session<Ref>, id: string)
    requires Right(sys, s) && Keeping(sys.condition) && Closed(sys, t) && id in s.cache && id in t.cache
    requires t.cache[id] == s.cache[id] && t.origin[id] == s.origin[id]
    requires var c := s.cache[id].context;
      s.data[c].Keys <= t.data[c].Keys && t.data[c] != s.data[c]
    ensures !RightAt(sys, t, id) && Misserved(sys, t, id)
  {
    var r, data := s.origin[id], t.data[s.cache[id].context];
    assert RightAt(sys, s, id);
    OutcomeGrows(sys, r);
    assert r.data + data == data;
  }

  /** A call leaves all cached results right if and only if none refers to its context, or nothing in it changes.
      If one does not stay right, some later request will be misserved. */
  lemma StaysRightExactlyWhen<Ref>(sys: System, s: Session<Ref>, call: Call<Ref>)
    requires Right(sys, s) && Keeping(sys.condition) && call.context in s.data
    ensures var t := Ask(sys, s, call);
      && (Right(sys, t) <==> !Refers(s, call.context) || t.data == s.data)
      && (Right(sys, t) <==> !SomeMisserved(sys, t))
  {
    var t := Ask(sys, s, call);
    AskKeepsClosed(sys, s, call);
    AskAnswers(sys, s, call);
    if Refers(s, call.context) && t.data != s.data {
      var id :| id in s.cache && s.cache[id].context == call.context;
      assert t.data[call.context] != s.data[call.context];
      ChangedIsMisserved(sys, s, t, id);
    } else {
      OthersStayRight(sys, s, call);
      RightServes(sys, t);
    }
  }

  lemma OthersStayRight<Ref>(sys: System, s: Session<Ref>, call: Call<Ref>)
    requires Right(sys, s) && call.context in s.data
    requires !Refers(s, call.context) || Ask(sys, s, call).data == s.data
    ensures Right(sys, Ask(sys, s, call))
  {
    var t := Ask(sys, s, call);
    AskKeepsClosed(sys, s, call);
    forall id | id in t.cache ensures RightAt(sys, t, id) {
      if id in s.cache {
        assert RightAt(sys, s, id);
      }
    }
  }

  lemma RightServes<Ref>(sys: System, s: Session<Ref>)
    requires Right(sys, s) && Keeping(sys.condition)
    ensures !SomeMisserved(sys, s)
  {
    forall id | id in s.cache ensures !Misserved(sys, s, id) {
      assert RightAt(sys, s, id);
      OutcomeGrows(sys, s.origin[id]);
    }
  }

  // Names without the separators, and the server's own condition

  predicate IsPlain(r: Request) {
    PlainNames(r) && r.roles != [] && r.roles != [""]
  }

  /** Every cached result is that of a request with plain names and at least one role. */
  ghost predicate AllPlain<Ref>(s: Session<Ref>) {
    forall id :: id in s.origin ==> IsPlain(s.origin[id])
  }

  ghost predicate Lawful(sys: System) {
    Injective(sys.stringify) && IsDynamic(sys.condition)
  }

  /** A request with plain names is answered by itself, unless its roles are one of the two lists that print alike. */
  lemma FirstIsOwn<Ref>(sys: System, s: Session<Ref>, r: Request)
    requires Injective(sys.stringify) && Closed(sys, s) && PlainNames(r) && PlainNames(First(sys, s, r))
    ensures Alike(First(sys, s, r), r)
    ensures r.roles != [] && r.roles != [""] ==> First(sys, s, r) == r
  {
    SameKeyExactlyWhenAlike(sys.stringify, First(sys, s, r), r);
  }

  /** The conditions of a request leave its context alone if and only if all is settled in it. */
  lemma HarmlessExactlyWhenSettled(sys: System, r: Request)
    requires IsDynamic(sys.condition)
    ensures Outcome(sys.policy, sys.condition, r) == r.data <==> AllSettled(r.data, sys.policy(r).conditions)
  {
    RunAllDynamic(sys.condition, r.data, sys.policy(r).conditions);
    UntouchedExactlyWhenSettled(r.data, sys.policy(r).conditions);
  }

  /** A call on a context that no cached result refers to at the time, or in which all is settled by then. */
  ghost predicate Fit<Ref>(sys: System, s: Session<Ref>, call: Call<Ref>)
    requires call.context in s.data
  {
    !Refers(s, call.context) || AllSettled(s.data[call.context], sys.policy(RequestOf(s, call)).conditions)
  }

  /** The session and the verdict without any cache. */
  ghost function Direct<Ref>(sys: System, data: map<Ref, Data>, call: Call<Ref>): map<Ref, Data>
    requires call.context in data
  {
    data[call.context :=
      Outcome(sys.policy, sys.condition, Request(call.roles, call.resource, call.action, data[call.context]))]
  }

  ghost function DirectAnswer<Ref>(sys: System, data: map<Ref, Data>, call: Call<Ref>): (bool, seq<string>)
    requires call.context in data
  {
    Answer(sys.policy, Request(call.roles, call.resource, call.action, data[call.context]))
  }

  predicate IsPlainCall<Ref>(call: Call<Ref>) {
    IsPlain(Request(call.roles, call.resource, call.action, map[]))
  }

  /** One call with plain names is answered exactly as without the cache. */
  lemma PlainAnswers<Ref>(sys: System, s: Session<Ref>, call: Call<Ref>)
    requires Lawful(sys) && Right(sys, s) && AllPlain(s) && call.context in s.data && IsPlainCall(call)
    ensures Verdict(Reply(sys, s, call)) == DirectAnswer(sys, s.data, call)
    ensures Ask(sys, s, call).data == Direct(sys, s.data, call)
  {
    var r := RequestOf(s, call);
    DynamicKeeps(sys.condition);
    FirstIsOwn(sys, s, r);
    AskAnswers(sys, s, call);
    OutcomeGrows(sys, r);
  }

  lemma AskKeepsPlain<Ref>(sys: System, s: Session<Ref>, call: Call<Ref>)
    requires Closed(sys, s) && AllPlain(s) && call.context in s.data && IsPlainCall(call)
    ensures AllPlain(Ask(sys, s, call))
  {
  }

  /** And the cache stays right, which is that no later request will be misserved, if and only if the call is fit. */
  lemma StaysRightExactlyWhenFit<Ref>(sys: System, s: Session<Ref>, call: Call<Ref>)
    requires Lawful(sys) && Right(sys, s) && AllPlain(s) && call.context in s.data && IsPlainCall(call)
    ensures Right(sys, Ask(sys, s, call)) <==> Fit(sys, s, call)
    ensures Right(sys, Ask(sys, s, call)) <==> !SomeMisserved(sys, Ask(sys, s, call))
  {
    var r := RequestOf(s, call);
    DynamicKeeps(sys.condition);
    StaysRightExactlyWhen(sys, s, call);
    PlainAnswers(sys, s, call);
    HarmlessExactlyWhenSettled(sys, r);
    SameDataExactlyWhen(s.data, call.context, Outcome(sys.policy, sys.condition, r));
  }

  lemma SameDataExactlyWhen<Ref>(data: map<Ref, Data>, context: Ref, d: Data)
    requires context in data
    ensures data[context := d] == data <==> d == data[context]
  {
    if d != data[context] {
      assert data[context := d][context] != data[context];
    }
  }

  // Sequences of calls, which may pass any context any number of times

  ghost predicate Known<Ref>(data: map<Ref, Data>, calls: seq<Call<Ref>>) {
    forall i :: 0 <= i < |calls| ==> calls[i].context in data
  }

  ghost predicate PlainCalls<Ref>(calls: seq<Call<Ref>>) {
    forall i :: 0 <= i < |calls| ==> IsPlainCall(calls[i])
  }

  ghost function AskAll<Ref>(sys: System, s: Session<Ref>, calls: seq<Call<Ref>>): Session<Ref>
    requires Closed(sys, s) && Known(s.data, calls)
    decreases |calls|
  {
    if calls == [] then s
    else
      AskKeepsClosed(sys, s, calls[0]);
      AskAll(sys, Ask(sys, s, calls[0]), calls[1..])
  }

  ghost function Replies<Ref>(sys: System, s: Session<Ref>, calls: seq<Call<Ref>>): seq<(bool, seq<string>)>
    requires Closed(sys, s) && Known(s.data, calls)
    decreases |calls|
  {
    if calls == [] then []
    else
      AskKeepsClosed(sys, s, calls[0]);
      [Verdict(Reply(sys, s, calls[0]))] + Replies(sys, Ask(sys, s, calls[0]), calls[1..])
  }

  /** The contexts after calls, and their verdicts, without any cache. */
  ghost function DirectAll<Ref>(sys: System, data: map<Ref, Data>, calls: seq<Call<Ref>>): map<Ref, Data>
    requires Known(data, calls)
    decreases |calls|
  {
    if calls == [] then data else DirectAll(sys, Direct(sys, data, calls[0]), calls[1..])
  }

  ghost function DirectAnswers<Ref>(sys: System, data: map<Ref, Data>, calls: seq<Call<Ref>>): seq<(bool, seq<string>)>
    requires Known(data, calls)
    decreases |calls|
  {
    if calls == [] then []
    else [DirectAnswer(sys, data, calls[0])] + DirectAnswers(sys, Direct(sys, data, calls[0]), calls[1..])
  }

  /** Each call is fit at its own time. */
  ghost predicate AllFit<Ref>(sys: System, s: Session<Ref>, calls: seq<Call<Ref>>)
    requires Closed(sys, s) && Known(s.data, calls)
    decreases |calls|
  {
    if calls == [] then true
    else
      AskKeepsClosed(sys, s, calls[0]);
      Fit(sys, s, calls[0]) && AllFit(sys, Ask(sys, s, calls[0]), calls[1..])
  }

  /** After each call, no request equal to one first made under some key would be misserved. */
  ghost predicate ServesAllAlong<Ref>(sys: System, s: Session<Ref>, calls: seq<Call<Ref>>)
    requires Closed(sys, s) && Known(s.data, calls)
    decreases |calls|
  {
    if calls == [] then true
    else
      AskKeepsClosed(sys, s, calls[0]);
      !SomeMisserved(sys, Ask(sys, s, calls[0])) && ServesAllAlong(sys, Ask(sys, s, calls[0]), calls[1..])
  }

  /** Calls that are fit, each at its own time, are answered and leave all contexts as without the cache. */
  lemma {:induction false} FitCallsAsDirect<Ref>(sys: System, s: Session<Ref>, calls: seq<Call<Ref>>)
    requires Lawful(sys) && Right(sys, s) && AllPlain(s) && Known(s.data, calls) && PlainCalls(calls)
    requires AllFit(sys, s, calls)
    ensures Right(sys, AskAll(sys, s, calls)) && AllPlain(AskAll(sys, s, calls))
    ensures Replies(sys, s, calls) == DirectAnswers(sys, s.data, calls)
    ensures AskAll(sys, s, calls).data == DirectAll(sys, s.data, calls)
    decreases |calls|
  {
    if calls != [] {
      PlainAnswers(sys, s, calls[0]);
      AskKeepsPlain(sys, s, calls[0]);
      StaysRightExactlyWhenFit(sys, s, calls[0]);
      FitCallsAsDirect(sys, Ask(sys, s, calls[0]), calls[1..]);
    }
  }

  /** The cache serves all along if and only if each call is fit at its own time: contexts may be passed again, if by
      then no cached result refers to them or all is settled in them. */
  lemma {:induction false} ServesAllAlongExactlyWhenFit<Ref>(sys: System, s: Session<Ref>, calls: seq<Call<Ref>>)
    requires Lawful(sys) && Right(sys, s) && AllPlain(s) && Known(s.data, calls) && PlainCalls(calls)
    ensures ServesAllAlong(sys, s, calls) <==> AllFit(sys, s, calls)
    decreases |calls|
  {
    if calls != [] {
      AskKeepsPlain(sys, s, calls[0]);
      StaysRightExactlyWhenFit(sys, s, calls[0]);
      if Fit(sys, s, calls[0]) {
        ServesAllAlongExactlyWhenFit(sys, Ask(sys, s, calls[0]), calls[1..]);
      }
    }
  }
}
