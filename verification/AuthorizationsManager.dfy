/**
 The authorizations manager on context objects. A cached result holds a reference to the context object of the call
 that computed it; later calls under the same key copy that object's properties into their own.
*/
module AuthorizationsManager {
  import opened AuthorizationSessions
  import opened DynamicAuthorizations

  class Context {
    var data: Data

    constructor (data: Data)
      ensures this.data == data
    {
      this.data := data;
    }
  }

  class AuthorizationsManager {
    const sys: System
    var cache: map<string, Result<Context>>
    ghost var origin: map<string, Request>

    /** The session over some contexts, among them all that the cache refers to. */
    ghost function Now(contexts: set<Context>): Session<Context>
      reads this, contexts
    {
      Session(map c | c in contexts :: c.data, cache, origin)
    }

    ghost predicate Valid(contexts: set<Context>)
      reads this, contexts
    {
      Closed(sys, Now(contexts))
    }

    constructor (sys: System)
      ensures this.sys == sys && Valid({}) && Right(sys, Now({})) && AllPlain(Now({}))
    {
      this.sys, cache, origin := sys, map[], map[];
    }

    /** Copies every property of a context object into another. */
    static method CopyInto(source: Context, target: Context)
      modifies target
      ensures target.data == old(target.data) + old(source.data)
    {
      var keys := source.data.Keys;
      ghost var before, copied := source.data, {};
      while keys != {}
        invariant keys !! copied && keys + copied == before.Keys
        invariant target.data == old(target.data) + (map k | k in copied :: before[k])
        invariant source == target || source.data == before
        invariant source == target ==> target.data == before
        decreases keys
      {
        var key :| key in keys;
        assert source.data[key] == before[key];
        target.data := target.data[key := source.data[key]];
        keys, copied := keys - {key}, copied + {key};
      }
      assert (map k | k in copied :: before[k]) == before;
    }

    /** Runs the conditions of a request, in order, on the caller's context. */
    method RunConditions(r: Request, context: Context)
      requires r.data == context.data
      modifies context
      ensures context.data == Outcome(sys.policy, sys.condition, r)
    {
      var conditions := sys.policy(r).conditions;
      for i := 0 to |conditions|
        invariant context.data == RunAll(sys.condition, r.data, conditions[..i])
      {
        assert conditions[..i + 1][..i] == conditions[..i];
        context.data := sys.condition(context.data, conditions[i]);
      }
      assert conditions[..|conditions|] == conditions;
    }

    /** A request that is not in the cache: evaluate it, in the caller's context, and store the result with it. */
    method Compute(id: string, r: Request, context: Context) returns (result: Result<Context>)
      requires r.data == context.data
      modifies this`cache, this`origin, context
      ensures result == Computed(sys, r, context) && context.data == Outcome(sys.policy, sys.condition, r)
      ensures cache == old(cache)[id := result] && origin == old(origin)[id := r]
    {
      RunConditions(r, context);
      var decision := sys.policy(r);
      result := Result(decision.granted, decision.fields, context);
      cache, origin := cache[id := result], origin[id := r];
    }

    /** A request that is in the cache: take the result, and copy its context into the caller's. */
    method FromCache(id: string, context: Context) returns (result: Result<Context>)
      requires id in cache
      modifies context
      ensures result == cache[id] && context.data == old(context.data) + old(cache[id].context.data)
    {
      result := cache[id];
      CopyInto(result.context, context);
    }

    /** One call, on a cache and contexts of any history, takes the specified step. */
    method CanPerformAction(call: Call<Context>, ghost contexts: set<Context>) returns (result: Result<Context>)
      requires Valid(contexts) && call.context in contexts
      modifies this`cache, this`origin, call.context
      ensures Valid(contexts) && Now(contexts) == Ask(sys, old(Now(contexts)), call)
      ensures result == Reply(sys, old(Now(contexts)), call)
    {
      var r := Request(call.roles, call.resource, call.action, call.context.data);
      var id := AuthID(sys.stringify, r);
      AskKeepsClosed(sys, Now(contexts), call);
      if id !in cache {
        result := Compute(id, r, call.context);
      } else {
        result := FromCache(id, call.context);
      }
    }

    /** Calls with plain names on any contexts, each fit at its own time: answered, and all contexts left, as without
        the cache. */
    method ServeAll(calls: seq<Call<Context>>, ghost contexts: set<Context>)
      returns (answers: seq<(bool, seq<string>)>)
      requires Lawful(sys) && Right(sys, Now(contexts)) && AllPlain(Now(contexts))
      requires Known(Now(contexts).data, calls) && PlainCalls(calls) && AllFit(sys, Now(contexts), calls)
      modifies this`cache, this`origin, contexts
      ensures Right(sys, Now(contexts)) && AllPlain(Now(contexts))
      ensures answers == DirectAnswers(sys, old(Now(contexts)).data, calls)
      ensures Now(contexts).data == DirectAll(sys, old(Now(contexts)).data, calls)
    {
      FitCallsAsDirect(sys, Now(contexts), calls);
      answers := AnswerAll(calls, contexts);
    }

    /** Any calls, one after another. */
    method AnswerAll(calls: seq<Call<Context>>, ghost contexts: set<Context>)
      returns (answers: seq<(bool, seq<string>)>)
      requires Valid(contexts) && Known(Now(contexts).data, calls)
      modifies this`cache, this`origin, contexts
      ensures Valid(contexts) && Now(contexts) == AskAll(sys, old(Now(contexts)), calls)
      ensures answers == Replies(sys, old(Now(contexts)), calls)
    {
      answers := [];
      if calls != [] {
        var result := CanPerformAction(calls[0], contexts);
        answers := AnswerAll(calls[1..], contexts);
        answers := [Verdict(result)] + answers;
      }
    }
  }
}
