/** `PoliciesGuard`: loads the caller's account, derives the ability, runs every
    registered policy handler and admits the request only if all of them pass.
    Handlers run side by side (`Promise.all`); their results are combined as
    a sequence here, since combining only ANDs them. */
module PoliciesGuard {
  import opened Wrappers
  import opened Domain
  import opened Ability
  import opened PolicyNode

  /** A registered handler: a class with `handle(ability, context)`, or a
      callback that is given the ability only. */
  datatype PolicyHandler<!V> =
    | HandlerClass(handle: (Ability, GqlContext<V>) -> HandlerResult)
    | HandlerCallback(callback: Ability -> bool)

  /** How `canActivate` settles: `true`, `false`, or a rejected promise. */
  datatype GuardOutcome = Allow | Deny | Rejected

  /** `execPolicyHandler`. */
  function ExecPolicyHandler<V>(handler: PolicyHandler<V>, ability: Ability, context: GqlContext<V>): HandlerResult
  {
    match handler
    case HandlerClass(handle) => handle(ability, context)
    case HandlerCallback(callback) => Returned(callback(ability))
  }

  /** `policyHandlers.map(...)`: one result per handler, in order. */
  function Results<V>(handlers: seq<PolicyHandler<V>>, ability: Ability, context: GqlContext<V>): (rs: seq<HandlerResult>)
    ensures |rs| == |handlers|
    ensures forall i :: 0 <= i < |rs| ==> rs[i] == ExecPolicyHandler(handlers[i], ability, context)
  {
    if handlers == [] then []
    else [ExecPolicyHandler(handlers[0], ability, context)] + Results(handlers[1..], ability, context)
  }

  /** `results.every((result) => result === true)`. */
  function Every(rs: seq<HandlerResult>): (b: bool)
    ensures b <==> forall i :: 0 <= i < |rs| ==> rs[i] == Returned(true)
  {
    if rs == [] then true
    else rs[0] == Returned(true) && Every(rs[1..])
  }

  /** `Promise.all` followed by `every`: one failing handler rejects the whole. */
  function Settle(rs: seq<HandlerResult>): GuardOutcome
  {
    if Threw in rs then Rejected
    else if Every(rs) then Allow
    else Deny
  }

  /** `canActivate`. `user` is the account id the authentication guard put on
      the request; `accounts` is the account repository with relations loaded. */
  function CanActivate<V>(handlers: seq<PolicyHandler<V>>, context: GqlContext<V>,
                          accounts: map<Id, Principal>, catalog: seq<Position>): GuardOutcome
    requires CallerLinked(context, accounts)
  {
    if context.user.None? then Deny
    else if context.user.value !in accounts then Deny
    else Settle(Results(handlers, AbilityFor(accounts[context.user.value], catalog), context))
  }

  /** The caller's own account carries what the ability factory dereferences;
      no other account is looked at. */
  predicate CallerLinked<V>(context: GqlContext<V>, accounts: map<Id, Principal>) {
    context.user.Some? && context.user.value in accounts ==> LinkedAsRoleRequires(accounts[context.user.value])
  }

  // ---------------------------------------------------------------------------

  /** A request with no authenticated user, or whose user has no account, is
      refused whatever handlers are registered (none of them runs). */
  lemma NoCallerRefused<V>(h1: seq<PolicyHandler<V>>, h2: seq<PolicyHandler<V>>, context: GqlContext<V>,
                            accounts: map<Id, Principal>, catalog: seq<Position>)
    requires context.user.None? || context.user.value !in accounts
    ensures CanActivate(h1, context, accounts, catalog) == CanActivate(h2, context, accounts, catalog) == Deny
  {
  }

  /** With a known caller, the guard admits iff every handler returns true,
      and rejects iff some handler fails. */
  lemma AllowIffEveryHandlerPasses<V>(handlers: seq<PolicyHandler<V>>, context: GqlContext<V>,
                                      accounts: map<Id, Principal>, catalog: seq<Position>)
    requires CallerLinked(context, accounts)
    requires context.user.Some? && context.user.value in accounts
    ensures var ability := AbilityFor(accounts[context.user.value], catalog);
      && (CanActivate(handlers, context, accounts, catalog) == Allow <==>
            forall i :: 0 <= i < |handlers| ==> ExecPolicyHandler(handlers[i], ability, context) == Returned(true))
      && (CanActivate(handlers, context, accounts, catalog) == Rejected <==>
            exists i :: 0 <= i < |handlers| && ExecPolicyHandler(handlers[i], ability, context) == Threw)
  {
    var ability := AbilityFor(accounts[context.user.value], catalog);
    var rs := Results(handlers, ability, context);
    if Threw in rs {
      var i :| 0 <= i < |rs| && rs[i] == Threw;
      assert ExecPolicyHandler(handlers[i], ability, context) == Threw;
    }
  }

  /** With nothing registered the guard admits any known caller: it does not
      fail closed. */
  lemma NoHandlersAdmits<V>(context: GqlContext<V>, accounts: map<Id, Principal>, catalog: seq<Position>)
    requires CallerLinked(context, accounts)
    requires context.user.Some? && context.user.value in accounts
    ensures CanActivate([], context, accounts, catalog) == Allow
  {
  }

  /** The outcome depends on which results occur, not on their order or count. */
  lemma {:induction false} SettleIgnoresOrder(r1: seq<HandlerResult>, r2: seq<HandlerResult>)
    requires forall r :: r in r1 <==> r in r2
    ensures Settle(r1) == Settle(r2)
  {
    forall i | 0 <= i < |r2| && Every(r1) ensures r2[i] == Returned(true) {
      assert r2[i] in r1;
    }
    forall i | 0 <= i < |r1| && Every(r2) ensures r1[i] == Returned(true) {
      assert r1[i] in r2;
    }
  }

  /** Every handler listed in `h1` is also listed in `h2`. */
  ghost predicate Covers<V>(h1: seq<PolicyHandler<V>>, h2: seq<PolicyHandler<V>>) {
    forall i :: 0 <= i < |h1| ==> exists j :: 0 <= j < |h2| && h2[j] == h1[i]
  }

  /** Every handler of `h1` also occurs in `h2`, so every result of `h1` does. */
  lemma {:induction false} ResultsCovered<V>(h1: seq<PolicyHandler<V>>, h2: seq<PolicyHandler<V>>, ability: Ability, context: GqlContext<V>)
    requires Covers(h1, h2)
    ensures forall r :: r in Results(h1, ability, context) ==> r in Results(h2, ability, context)
  {
    var r1 := Results(h1, ability, context);
    var r2 := Results(h2, ability, context);
    forall i | 0 <= i < |r1| ensures r1[i] in r2 {
      var j :| 0 <= j < |h2| && h2[j] == h1[i];
      assert r2[j] == ExecPolicyHandler(h1[i], ability, context);
    }
  }

  /** Listing the same handlers in another order (or repeating one) changes nothing. */
  lemma {:induction false} HandlerOrderIrrelevant<V>(h1: seq<PolicyHandler<V>>, h2: seq<PolicyHandler<V>>, context: GqlContext<V>,
                                                    accounts: map<Id, Principal>, catalog: seq<Position>)
    requires CallerLinked(context, accounts)
    requires Covers(h1, h2) && Covers(h2, h1)
    ensures CanActivate(h1, context, accounts, catalog) == CanActivate(h2, context, accounts, catalog)
  {
    if context.user.Some? && context.user.value in accounts {
      var ability := AbilityFor(accounts[context.user.value], catalog);
      var r1, r2 := Results(h1, ability, context), Results(h2, ability, context);
      ResultsCovered(h1, h2, ability, context);
      ResultsCovered(h2, h1, ability, context);
      SettleIgnoresOrder(r1, r2);
      assert CanActivate(h1, context, accounts, catalog) == Settle(r1);
      assert CanActivate(h2, context, accounts, catalog) == Settle(r2);
    }
  }

  /** A callback sees the ability only: the context cannot change its verdict. */
  lemma CallbackIgnoresContext<V>(callback: Ability -> bool, ability: Ability, c1: GqlContext<V>, c2: GqlContext<V>)
    ensures ExecPolicyHandler(HandlerCallback(callback), ability, c1) == ExecPolicyHandler(HandlerCallback(callback), ability, c2)
  {
  }
}
