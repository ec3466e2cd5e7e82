/** The background session refresher: renew before expiry, and recover or stop
    when a renewal fails. */
module Refresher {
  import opened Bytes
  import opened Numbers
  import opened Retry

  const RECOVERY_MAX_BACKOFF_SECS := 120

  const UNKNOWN_EXPIRY_DELAY := 600

  datatype Options = Options(leadSecs: int, minIntervalSecs: nat, recoveryInitialBackoffSecs: nat)

  /** How long to sleep: until the lead time before expiry, but never less than the
      minimum interval. A wake-up later than that lead is owed to the minimum. */
  function NextRefreshDelay(expiresAt: int, now: int, o: Options): (d: nat)
    ensures expiresAt <= 0 ==> d == 600
    ensures expiresAt > 0 ==> d >= o.minIntervalSecs && d >= expiresAt - now - o.leadSecs
    ensures expiresAt > 0 && d > o.minIntervalSecs ==> now + d == expiresAt - o.leadSecs
  {
    if expiresAt <= 0 then UNKNOWN_EXPIRY_DELAY
    else Max(Max(expiresAt - now - o.leadSecs, 0), o.minIntervalSecs)
  }

  datatype Tokens = Tokens(cct: Key, refreshToken: Option<Key>, expiresAt: int)

  datatype Phase =
    | Sleeping(since: int, delay: nat)
    | Refreshing(token: Key)         // the refresh call is outstanding
    | Recovering                     // the recovery call is outstanding
    | BackingOff(wait: nat)
    | Ended

  /** `issued`: every session so far. `presented`: the refresh tokens handed to the
      gateway. `waits`: the backoffs of the current recovery. */
  datatype State = State(phase: Phase, provider: Option<Key>, refreshToken: Option<Key>,
                         backoff: nat, issued: seq<Tokens>, presented: seq<Key>, waits: seq<nat>)

  datatype Input =
    | Woke
    | Granted(tokens: Tokens, now: int)       // the outstanding call returned a session
    | Refused                                 // the outstanding call failed

  datatype Config = Config(options: Options, recovery: bool)

  function Start(initial: Tokens, provider: Option<Key>, now: int, c: Config): State {
    State(Sleeping(now, NextRefreshDelay(initial.expiresAt, now, c.options)), provider, initial.refreshToken,
          0, [initial], [], [])
  }

  predicate Enabled(s: State, i: Input) {
    match i
    case Woke => s.phase.Sleeping? || s.phase.BackingOff?
    case Granted(_, _) => s.phase.Refreshing? || s.phase.Recovering?
    case Refused => s.phase.Refreshing? || s.phase.Recovering?
  }

  /** Renewal failed: stop, or enter recovery with the credential cleared. */
  function AfterFailure(s: State, c: Config): State {
    if c.recovery then
      s.(phase := Recovering, provider := None, backoff := c.options.recoveryInitialBackoffSecs, waits := [])
    else s.(phase := Ended, provider := None)
  }

  function Next(s: State, i: Input, c: Config): State
    requires Enabled(s, i)
  {
    match i
    case Woke =>
      if s.phase.BackingOff? then s.(phase := Recovering, backoff := Min(2 * s.backoff, RECOVERY_MAX_BACKOFF_SECS))
      else if s.refreshToken.Some? then
        s.(phase := Refreshing(s.refreshToken.value),
           presented := s.presented + [s.refreshToken.value])
      else if !c.recovery then s.(phase := Ended)
      else AfterFailure(s, c)
    case Granted(t, now) =>
      s.(phase := Sleeping(now, NextRefreshDelay(t.expiresAt, now, c.options)), provider := Some(t.cct),
         refreshToken := t.refreshToken, issued := s.issued + [t])
    case Refused =>
      if s.phase.Recovering? then s.(phase := BackingOff(s.backoff), waits := s.waits + [s.backoff])
      else AfterFailure(s, c)
  }

  function Run(inputs: seq<Input>, start: State, c: Config): Option<State> {
    if inputs == [] then Some(start)
    else
      var n := |inputs| - 1;
      match Run(inputs[..n], start, c)
      case None => None
      case Some(s) => if Enabled(s, inputs[n]) then Some(Next(s, inputs[n], c)) else None
  }

  // ----- What every run keeps -----

  ghost function BackoffPolicy(c: Config): Policy {
    Policy(0, c.options.recoveryInitialBackoffSecs, RECOVERY_MAX_BACKOFF_SECS)
  }

  ghost predicate CredentialInv(s: State) {
    && s.issued != []
    && s.refreshToken == s.issued[|s.issued| - 1].refreshToken
    && (s.provider.Some? ==> s.provider.value == s.issued[|s.issued| - 1].cct)
    && (s.phase.Recovering? || s.phase.BackingOff? ==> s.provider.None?)
  }

  ghost predicate DistinctTokens(issued: seq<Tokens>) {
    forall x, y :: 0 <= x < y < |issued| && issued[x].refreshToken.Some? ==>
      issued[x].refreshToken != issued[y].refreshToken
  }

  /** The token is that of one of the first `n` sessions. */
  ghost predicate IssuedAmong(issued: seq<Tokens>, n: nat, token: Key)
    requires n <= |issued|
  {
    exists x :: 0 <= x < n && issued[x].refreshToken == Some(token)
  }

  ghost predicate DistinctKeys(ks: seq<Key>) {
    forall i, j :: 0 <= i < j < |ks| ==> ks[i] != ks[j]
  }

  /** While asleep, the token of the session in use has not been presented yet. */
  ghost predicate PresentedInv(s: State)
    requires s.issued != []
  {
    var n := if s.phase.Sleeping? then |s.issued| - 1 else |s.issued|;
    && (forall i :: 0 <= i < |s.presented| ==> IssuedAmong(s.issued, n, s.presented[i]))
    && (DistinctTokens(s.issued) ==> DistinctKeys(s.presented))
    && (s.phase.Refreshing? ==> s.presented != [] && s.presented[|s.presented| - 1] == s.phase.token)
  }

  ghost predicate RecoveryInv(s: State, c: Config) {
    && (s.phase.Recovering? || s.phase.BackingOff? ==>
          && c.recovery
          && (forall k :: 0 <= k < |s.waits| ==> s.waits[k] == WaitAfter(k, BackoffPolicy(c)))
          && (s.phase.Recovering? ==> s.backoff == WaitAfter(|s.waits|, BackoffPolicy(c)))
          && (s.phase.BackingOff? ==> s.waits != [] && s.phase.wait == s.backoff
                                      && s.backoff == WaitAfter(|s.waits| - 1, BackoffPolicy(c))))
    && (s.phase.Ended? ==> !c.recovery && (s.provider.None? || s.refreshToken.None?))
  }

  /** The sleep is measured against the session in use. */
  ghost predicate SleepInv(s: State, c: Config)
    requires s.issued != []
  {
    s.phase.Sleeping? ==>
      s.phase.delay == NextRefreshDelay(s.issued[|s.issued| - 1].expiresAt, s.phase.since, c.options)
  }

  ghost predicate Inv(s: State, c: Config) {
    CredentialInv(s) && PresentedInv(s) && RecoveryInv(s, c) && SleepInv(s, c)
  }

  lemma AmongGrows(issued: seq<Tokens>, more: seq<Tokens>, n: nat, m: nat, token: Key)
    requires n <= |issued| && n <= m <= |issued + more| && IssuedAmong(issued, n, token)
    ensures IssuedAmong(issued + more, m, token)
  {
    var x :| 0 <= x < n && issued[x].refreshToken == Some(token);
    assert (issued + more)[x] == issued[x];
  }

  lemma DistinctPrefix(issued: seq<Tokens>, t: Tokens)
    ensures DistinctTokens(issued + [t]) ==> DistinctTokens(issued)
  {
    if DistinctTokens(issued + [t]) {
      forall x, y | 0 <= x < y < |issued| && issued[x].refreshToken.Some?
        ensures issued[x].refreshToken != issued[y].refreshToken
      {
        assert (issued + [t])[x] == issued[x] && (issued + [t])[y] == issued[y];
      }
    }
  }

  lemma PresentedKeeps(s: State, i: Input, c: Config)
    requires CredentialInv(s) && PresentedInv(s) && Enabled(s, i)
    ensures Next(s, i, c).issued != [] && PresentedInv(Next(s, i, c))
  {
    var s' := Next(s, i, c);
    var n := if s.phase.Sleeping? then |s.issued| - 1 else |s.issued|;
    var n' := if s'.phase.Sleeping? then |s'.issued| - 1 else |s'.issued|;
    var more := if i.Granted? then [i.tokens] else [];
    assert s'.issued == s.issued + more;
    forall j | 0 <= j < |s.presented| ensures IssuedAmong(s'.issued, n', s.presented[j]) {
      AmongGrows(s.issued, more, n, n', s.presented[j]);
    }
    if i.Granted? {
      DistinctPrefix(s.issued, i.tokens);
    }
    if s'.phase.Refreshing? {
      assert s'.issued[|s.issued| - 1].refreshToken == Some(s'.phase.token);
    }
  }

  lemma NextKeeps(s: State, i: Input, c: Config)
    requires Inv(s, c) && Enabled(s, i)
    ensures Inv(Next(s, i, c), c)
  {
    PresentedKeeps(s, i, c);
    if s.phase.BackingOff? {
      DoubleThenCap(|s.waits| - 1, BackoffPolicy(c));
    }
  }

  lemma {:induction false} RunInv(inputs: seq<Input>, initial: Tokens, provider: Option<Key>, now: int, c: Config)
    requires provider.None? || provider.value == initial.cct
    requires Run(inputs, Start(initial, provider, now, c), c).Some?
    ensures Inv(Run(inputs, Start(initial, provider, now, c), c).value, c)
  {
    if inputs != [] {
      var n := |inputs| - 1;
      RunInv(inputs[..n], initial, provider, now, c);
      NextKeeps(Run(inputs[..n], Start(initial, provider, now, c), c).value, inputs[n], c);
    }
  }

  // ----- The theorems -----

  /** The cached credential is empty or the latest one issued, and empty all through
      recovery. The loop ends only without a recovery action, and then either the
      credential was cleared or there was no refresh token to present. Recovery
      waits double from the configured start up to the cap. */
  lemma {:induction false} RefresherIsSafe(inputs: seq<Input>, initial: Tokens, provider: Option<Key>, now: int,
                                           c: Config)
    requires provider.None? || provider.value == initial.cct
    requires Run(inputs, Start(initial, provider, now, c), c).Some?
    ensures var s := Run(inputs, Start(initial, provider, now, c), c).value;
            && s.issued != []
            && (s.provider.None? || s.provider.value == s.issued[|s.issued| - 1].cct)
            && (s.phase.Recovering? || s.phase.BackingOff? ==> s.provider.None? && c.recovery)
            && (s.phase.Ended? ==> !c.recovery && (s.provider.None? || s.refreshToken.None?))
            && (s.phase.Recovering? || s.phase.BackingOff? ==>
                  forall k :: 0 <= k < |s.waits| ==> s.waits[k] == WaitAfter(k, BackoffPolicy(c)))
  {
    RunInv(inputs, initial, provider, now, c);
  }

  /** The next renewal is due the lead time before the current session expires, or
      after the minimum interval when that is later. */
  lemma {:induction false} RenewsInTime(inputs: seq<Input>, initial: Tokens, provider: Option<Key>, now: int, c: Config)
    requires provider.None? || provider.value == initial.cct
    requires Run(inputs, Start(initial, provider, now, c), c).Some?
    ensures var s := Run(inputs, Start(initial, provider, now, c), c).value;
            && s.issued != []
            && var expiry := s.issued[|s.issued| - 1].expiresAt;
               (s.phase.Sleeping? && expiry > 0 ==>
                  s.phase.since + s.phase.delay
                  == Max(expiry - c.options.leadSecs, s.phase.since + c.options.minIntervalSecs))
  {
    RunInv(inputs, initial, provider, now, c);
  }

  /** When issued refresh tokens are all different, no token is handed to the
      gateway twice; each one handed over was issued. */
  lemma {:induction false} NoTokenTwice(inputs: seq<Input>, initial: Tokens, provider: Option<Key>, now: int, c: Config,
                                        i: nat, j: nat)
    requires provider.None? || provider.value == initial.cct
    requires Run(inputs, Start(initial, provider, now, c), c).Some?
    requires var s := Run(inputs, Start(initial, provider, now, c), c).value;
             DistinctTokens(s.issued) && i < j < |s.presented|
    ensures var s := Run(inputs, Start(initial, provider, now, c), c).value;
            && s.presented[i] != s.presented[j]
            && IssuedAmong(s.issued, |s.issued|, s.presented[i])
  {
    RunInv(inputs, initial, provider, now, c);
    var s := Run(inputs, Start(initial, provider, now, c), c).value;
    assert s.issued + [] == s.issued;
    AmongGrows(s.issued, [], if s.phase.Sleeping? then |s.issued| - 1 else |s.issued|, |s.issued|, s.presented[i]);
  }

  /** While renewing normally the cache is empty only if it was never filled. When
      the loop has ended, it is empty exactly if the last session carried a refresh
      token (whose renewal failed), or the cache was never filled. */
  ghost predicate EndInv(s: State, provider: Option<Key>)
    requires s.issued != []
  {
    var unfilled := provider.None? && |s.issued| == 1;
    && (s.phase.Sleeping? || s.phase.Refreshing? ==> (s.provider.None? <==> unfilled))
    && (s.phase.Refreshing? ==> s.refreshToken.Some?)
    && (s.phase.Ended? ==> (s.provider.None? <==> unfilled || s.issued[|s.issued| - 1].refreshToken.Some?))
  }

  lemma {:induction false} RunEndInv(inputs: seq<Input>, initial: Tokens, provider: Option<Key>, now: int, c: Config)
    requires provider.None? || provider.value == initial.cct
    requires Run(inputs, Start(initial, provider, now, c), c).Some?
    ensures var s := Run(inputs, Start(initial, provider, now, c), c).value; s.issued != [] && EndInv(s, provider)
  {
    RunInv(inputs, initial, provider, now, c);
    if inputs != [] {
      var n := |inputs| - 1;
      RunEndInv(inputs[..n], initial, provider, now, c);
      RunInv(inputs[..n], initial, provider, now, c);
    }
  }

  /** The credential is cleared when the loop stops if and only if the session in
      use carried a refresh token: stopping for want of one keeps it. */
  lemma {:induction false} ClearedAtEndIff(inputs: seq<Input>, initial: Tokens, now: int, c: Config)
    requires Run(inputs, Start(initial, Some(initial.cct), now, c), c).Some?
    requires Run(inputs, Start(initial, Some(initial.cct), now, c), c).value.phase.Ended?
    ensures var s := Run(inputs, Start(initial, Some(initial.cct), now, c), c).value;
            s.issued != [] && (s.provider.None? <==> s.issued[|s.issued| - 1].refreshToken.Some?)
  {
    RunEndInv(inputs, initial, Some(initial.cct), now, c);
  }

  /** Without a recovery action and without a refresh token the loop stops with the
      old credential still cached. */
  lemma MissingTokenKeepsCredential(cct: Key, now: int, o: Options)
    ensures var c := Config(o, false);
            var r := Run([Woke], Start(Tokens(cct, None, 0), Some(cct), now, c), c);
            r.Some? && r.value.phase == Ended && r.value.provider == Some(cct)
  {
    var c := Config(o, false);
    var start := Start(Tokens(cct, None, 0), Some(cct), now, c);
    assert [Woke][..0] == [];
    assert Run([Woke][..0], start, c) == Some(start);
  }

  // ----- As it runs -----

  class CachedTokenProvider {
    var token: Option<Key>

    constructor (token: Option<Key>)
      ensures this.token == token
    {
      this.token := token;
    }
  }

  ghost function After(inputs: seq<Input>, n: nat, start: State, c: Config): Option<State>
    requires n <= |inputs|
  {
    Run(inputs[..n], start, c)
  }

  lemma {:induction false} OneMore(inputs: seq<Input>, n: nat, start: State, c: Config)
    requires Run(inputs, start, c).Some? && n < |inputs|
    ensures After(inputs, n, start, c).Some? && Enabled(After(inputs, n, start, c).value, inputs[n])
    ensures After(inputs, n + 1, start, c) == Some(Next(After(inputs, n, start, c).value, inputs[n], c))
    decreases |inputs| - n
  {
    if n + 1 == |inputs| {
      assert inputs[..n + 1] == inputs;
    } else {
      OneMore(inputs, n + 1, start, c);
    }
    assert inputs[..n + 1][..n] == inputs[..n];
  }

  /** The refresh loop over the results of the calls it makes, in order; `sent` are
      the tokens it hands to the gateway. */
  method RunLoop(cache: CachedTokenProvider, initial: Tokens, now: int, c: Config, inputs: seq<Input>)
    returns (phase: Phase, sent: seq<Key>)
    requires Run(inputs, Start(initial, cache.token, now, c), c).Some?
    modifies cache
    ensures var s := Run(inputs, Start(initial, old(cache.token), now, c), c).value;
            phase == s.phase && cache.token == s.provider && sent == s.presented
  {
    ghost var start := Start(initial, cache.token, now, c);
    var refreshToken, backoff := initial.refreshToken, 0;
    sent := [];
    phase := Sleeping(now, NextRefreshDelay(initial.expiresAt, now, c.options));
    assert inputs[..0] == [];
    for i := 0 to |inputs|
      invariant After(inputs, i, start, c).Some?
      invariant var s := After(inputs, i, start, c).value;
                && s.phase == phase && s.provider == cache.token && s.refreshToken == refreshToken
                && s.backoff == backoff && s.presented == sent
    {
      OneMore(inputs, i, start, c);
      var failed := false;
      match inputs[i] {
        case Woke =>
          if phase.BackingOff? {
            backoff := Min(2 * backoff, RECOVERY_MAX_BACKOFF_SECS);
            phase := Recovering;
          } else if refreshToken.Some? {
            phase := Refreshing(refreshToken.value);
            sent := sent + [refreshToken.value];
          } else if !c.recovery {
            phase := Ended;
          } else {
            failed := true;
          }
        case Granted(t, at) =>
          cache.token := Some(t.cct);
          refreshToken := t.refreshToken;
          phase := Sleeping(at, NextRefreshDelay(t.expiresAt, at, c.options));
        case Refused =>
          if phase.Recovering? {
            phase := BackingOff(backoff);
          } else {
            failed := true;
          }
      }
      if failed {
        cache.token := None;
        if c.recovery {
          backoff := c.options.recoveryInitialBackoffSecs;
          phase := Recovering;
        } else {
          phase := Ended;
        }
      }
    }
    assert inputs[..|inputs|] == inputs;
  }

  // ----- The loop, told from the inputs -----

  /** The session in use, and the inputs since it was issued. */
  function Session(inputs: seq<Input>, initial: Tokens): Tokens {
    if inputs == [] then initial
    else if inputs[|inputs| - 1].Granted? then inputs[|inputs| - 1].tokens
    else Session(inputs[..|inputs| - 1], initial)
  }

  predicate AnyGranted(inputs: seq<Input>) {
    exists i :: 0 <= i < |inputs| && inputs[i].Granted?
  }

  function WokeSince(inputs: seq<Input>): nat {
    if inputs == [] || inputs[|inputs| - 1].Granted? then 0
    else WokeSince(inputs[..|inputs| - 1]) + if inputs[|inputs| - 1].Woke? then 1 else 0
  }

  function RefusedSince(inputs: seq<Input>): nat {
    if inputs == [] || inputs[|inputs| - 1].Granted? then 0
    else RefusedSince(inputs[..|inputs| - 1]) + if inputs[|inputs| - 1].Refused? then 1 else 0
  }

  /** Where `woke` wake-ups and `refused` refusals since the session was issued leave
      the loop. A session with a refresh token is renewed with it once; if that
      fails, or there is no token, recovery is tried until it succeeds, or the loop
      ends if there is none. */
  ghost predicate StandsAt(s: State, t: Tokens, woke: nat, refused: nat, c: Config) {
    var token := t.refreshToken;
    var failed := if token.Some? then refused - 1 else refused;      // recoveries that failed
    if woke == 0 then s.phase.Sleeping? && refused == 0
    else if token.Some? && refused == 0 then s.phase == Refreshing(token.value) && woke == 1
    else if !c.recovery then s.phase == Ended && woke == 1
    else if woke == failed + 1 then s.phase == Recovering
    else woke == failed && failed > 0 && s.phase == BackingOff(WaitAfter(failed - 1, BackoffPolicy(c)))
  }

  /** The credential in the cache: kept while its session is in use or being renewed,
      or if the loop ended without a token to renew it; cleared by any failure. */
  function Cached(t: Tokens, first: Option<Key>, woke: nat, refused: nat, c: Config): Option<Key> {
    if woke == 0 || (if t.refreshToken.Some? then refused == 0 else !c.recovery) then first else None
  }

  ghost predicate StandInv(s: State, inputs: seq<Input>, initial: Tokens, provider: Option<Key>, c: Config) {
    var t, woke, refused := Session(inputs, initial), WokeSince(inputs), RefusedSince(inputs);
    && s.refreshToken == t.refreshToken
    && StandsAt(s, t, woke, refused, c)
    && s.provider == Cached(t, if AnyGranted(inputs) then Some(t.cct) else provider, woke, refused, c)
    && (s.phase.Recovering? || s.phase.BackingOff? ==>
          |s.waits| == if t.refreshToken.Some? then refused - 1 else refused)
  }

  lemma GrantedSnoc(inputs: seq<Input>, i: Input)
    ensures AnyGranted(inputs + [i]) <==> AnyGranted(inputs) || i.Granted?
  {
    if AnyGranted(inputs) {
      var j :| 0 <= j < |inputs| && inputs[j].Granted?;
      assert (inputs + [i])[j].Granted?;
    }
    assert (inputs + [i])[|inputs|] == i;
  }

  lemma StepStands(s: State, inputs: seq<Input>, i: Input, initial: Tokens, provider: Option<Key>, c: Config)
    requires StandInv(s, inputs, initial, provider, c) && RecoveryInv(s, c) && Enabled(s, i)
    ensures StandInv(Next(s, i, c), inputs + [i], initial, provider, c)
  {
    assert (inputs + [i])[..|inputs|] == inputs;
    GrantedSnoc(inputs, i);
  }

  lemma {:induction false} RecoveryAlways(inputs: seq<Input>, start: State, c: Config)
    requires RecoveryInv(start, c) && Run(inputs, start, c).Some?
    ensures RecoveryInv(Run(inputs, start, c).value, c)
  {
    if inputs != [] {
      var n := |inputs| - 1;
      RecoveryAlways(inputs[..n], start, c);
      var s := Run(inputs[..n], start, c).value;
      if s.phase.BackingOff? {
        DoubleThenCap(|s.waits| - 1, BackoffPolicy(c));
      }
    }
  }

  lemma {:induction false} RunStands(inputs: seq<Input>, initial: Tokens, provider: Option<Key>, now: int, c: Config)
    requires Run(inputs, Start(initial, provider, now, c), c).Some?
    ensures StandInv(Run(inputs, Start(initial, provider, now, c), c).value, inputs, initial, provider, c)
  {
    if inputs != [] {
      var n := |inputs| - 1;
      var start := Start(initial, provider, now, c);
      RunStands(inputs[..n], initial, provider, now, c);
      RecoveryAlways(inputs[..n], start, c);
      assert inputs[..n] + [inputs[n]] == inputs;
      StepStands(Run(inputs[..n], start, c).value, inputs[..n], inputs[n], initial, provider, c);
    }
  }

  /** After any inputs, the phase of the loop and the cached credential are what the
      session in use, the wake-ups and the refusals since it was issued make them. */
  lemma {:induction false} LoopStandsWhere(inputs: seq<Input>, initial: Tokens, provider: Option<Key>, now: int,
                                           c: Config)
    requires Run(inputs, Start(initial, provider, now, c), c).Some?
    ensures var s := Run(inputs, Start(initial, provider, now, c), c).value;
            var t, woke, refused := Session(inputs, initial), WokeSince(inputs), RefusedSince(inputs);
            && StandsAt(s, t, woke, refused, c)
            && s.provider == Cached(t, if AnyGranted(inputs) then Some(t.cct) else provider, woke, refused, c)
  {
    RunStands(inputs, initial, provider, now, c);
  }
}
