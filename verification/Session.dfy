/** One client connection from its first screen to its disconnect (internal/server/session.go). Every
    answer of the presenter, the store, the authenticator, the cipher, the bridger and the clock is
    one of the connection's facts, consumed in order; from the end of its lifetime on every prompt
    fails, as on a dead connection. */
module Session {
  import opened IdleConn
  import opened Prelude
  import opened SessionTrace
  import Relay

  datatype UserRow = UserRow(enrolled: bool, required: bool, locked: bool)

  datatype MenuChoice = Requery | Quit | Admin | UserSettings | Service(selected: Option<string>)

  datatype AdminStep = AdminPrompt | AdminRecords(username: string) | AdminLeaves

  /** How the presenter returns from a prompt. */
  datatype Reply = Entered | PF3 | Expired | Broken

  /** What one call outside the session may answer. */
  datatype Facts = Facts(
    reply: Reply, typed: string, menu: MenuChoice, option: int,   // a prompt
    verdict: AuthVerdict, code: CodeVerdict,                      // credentials, one-time code
    done: bool, timeout: bool,                                    // a call succeeded; its error is a timeout
    row: Option<UserRow>, news: bool, admin: AdminStep, cause: Relay.Cause, now: int)

  /** The outcome a reply means on a screen; on a dead connection every prompt fails. */
  function OutcomeOf(f: Facts, dead: bool, screen: Screen): Outcome {
    if dead || f.reply.Broken? then Failed
    else if f.reply.Expired? then TimedOut
    else if screen.Menu? then
      match f.menu
      case Quit => Back
      case Admin => AdminChosen
      case UserSettings => SettingsChosen
      case Service(Some(name)) => Picked(name)
      case _ => Answered("")
    else if f.reply.PF3? && !screen.News? then Back
    else if screen.Settings? then OptionChosen(f.option)
    else Answered(if screen.LoginScreen? then f.typed else "")
  }

  /** Observations that consume one fact. */
  predicate Consumes(o: Obs) {
    match o
    case Audit(kind, _, _, _) => kind.AdminChange?
    case LoginEntry => false
    case GateOff => false
    case _ => true
  }

  predicate CallAnswered(f: Facts, call: Call, ok: bool) {
    if call.LoadingUser? then f.row.Some? == ok else f.done == ok
  }

  /** The observation is what this fact answers. */
  predicate Answers(f: Facts, dead: bool, o: Obs) {
    match o
    case Audit(_, user, _, _) => !dead && f.admin == AdminRecords(user)
    case Shown(screen, _, out) => out == OutcomeOf(f, dead, screen)
    case Checked(_, v) => v == f.verdict
    case CodeChecked(c) => c == f.code
    case Went(call) => CallAnswered(f, call, true)
    case Trouble(call, timeout) => CallAnswered(f, call, false) && timeout == f.timeout
    case Declined => !f.done
    case NewsRead(present) => present == f.news
    case UserRead(enrolled, required) =>
      f.row.Some? && f.row.value.enrolled == enrolled && f.row.value.required == required
    case Bridged(_, _, cause) => cause == f.cause
    case Armed(at, _) => at == f.now
    case GateRead(secret, required, locked) => f.row == Some(UserRow(secret, required, locked))
    case LockRead(locked) => locked == (f.row.Some? && f.row.value.locked)
    case _ => true
  }

  /** ticks[i] facts were consumed before observation i, none skipped and none twice, and each
      observation that consumes one is what it answers. */
  ghost predicate FactsInOrder(facts: nat -> Facts, lifetime: nat, trace: seq<Obs>, ticks: seq<nat>) {
    && |ticks| == |trace| + 1
    && ticks[0] == 0
    && forall i :: 0 <= i < |trace| ==> AnsweredAt(facts, lifetime, trace, ticks, i)
  }

  ghost predicate AnsweredAt(facts: nat -> Facts, lifetime: nat, trace: seq<Obs>, ticks: seq<nat>, i: nat)
    requires i < |trace| && |ticks| == |trace| + 1
  {
    if Consumes(trace[i]) then
      ticks[i + 1] == ticks[i] + 1 && Answers(facts(ticks[i]), ticks[i] >= lifetime, trace[i])
    else ticks[i + 1] == ticks[i]
  }

  lemma FactsSnoc(facts: nat -> Facts, lifetime: nat, trace: seq<Obs>, ticks: seq<nat>, o: Obs)
    requires FactsInOrder(facts, lifetime, trace, ticks)
    requires Consumes(o) ==> Answers(facts(ticks[|trace|]), ticks[|trace|] >= lifetime, o)
    ensures FactsInOrder(facts, lifetime, trace + [o], ticks + [ticks[|trace|] + if Consumes(o) then 1 else 0])
  {
    var t, u := trace + [o], ticks + [ticks[|trace|] + if Consumes(o) then 1 else 0];
    forall i: nat | i < |t| ensures AnsweredAt(facts, lifetime, t, u, i) {
      assert u[i] == ticks[i];
      if i < |trace| {
        assert AnsweredAt(facts, lifetime, trace, ticks, i) && t[i] == trace[i] && u[i + 1] == ticks[i + 1];
      }
    }
  }

  /** The answer that ended a run: a failed call, a prompt that broke (or met a dead connection), a login
      prompt left or timed out, or a client that closed during a bridge. */
  predicate Ends(f: Facts, dead: bool, o: Obs) {
    match o
    case Trouble(call, _) => CallAnswered(f, call, false)
    case Shown(screen, _, _) => dead || f.reply.Broken? || (screen.LoginScreen? && !f.reply.Entered?)
    case Bridged(_, _, _) => f.cause.ClientClosed?
    case _ => false
  }

  /** A run ends only because an answer from outside ended it: the one behind the last thing before the
      disconnect, a bridge's end event apart. */
  lemma RunEndsForCause(cfg: Config, facts: nat -> Facts, lifetime: nat, trace: seq<Obs>, st: seq<Progress>,
                        ticks: seq<nat>)
    requires Complete(cfg, trace, st) && FactsInOrder(facts, lifetime, trace, ticks)
    ensures var n := |trace|;
            && n >= 3
            && if IsAudit(trace[n - 2], BridgeEnd) then EndedBy(facts, lifetime, trace, ticks, n - 3)
               else EndedBy(facts, lifetime, trace, ticks, n - 2)
  {
    EndHasCause(cfg, trace, st);
    assert AnsweredAt(facts, lifetime, trace, ticks, |trace| - 2);
    assert AnsweredAt(facts, lifetime, trace, ticks, |trace| - 3);
  }

  predicate EndedBy(facts: nat -> Facts, lifetime: nat, trace: seq<Obs>, ticks: seq<nat>, i: nat)
    requires i < |trace| < |ticks|
  {
    Consumes(trace[i]) && Ends(facts(ticks[i]), ticks[i] >= lifetime, trace[i])
  }

  // ---------------------------------------------------------------- what the user does, and what follows

  /** Whether this connection still answers at observation i. */
  predicate Alive(f: Facts, lifetime: nat, tick: nat) { tick < lifetime && !f.reply.Broken? }

  /** At the login screen: credentials entered are checked next, under the name typed, with the verdict the
      authenticator gives; leaving, idling or breaking off ends the connection. */
  lemma LoginAnswersAreFollowed(cfg: Config, facts: nat -> Facts, lifetime: nat, trace: seq<Obs>,
                                st: seq<Progress>, ticks: seq<nat>, i: nat)
    requires Complete(cfg, trace, st) && FactsInOrder(facts, lifetime, trace, ticks)
    requires i < |trace| && IsScreen(trace[i], LoginScreen)
    ensures i + 1 < |trace|
    ensures var f := facts(ticks[i]);
            if Alive(f, lifetime, ticks[i]) && f.reply == Entered
            then trace[i + 1] == Checked(f.typed, facts(ticks[i] + 1).verdict)
            else IsAudit(trace[i + 1], Disconnect)
  {
    assert AnsweredAt(facts, lifetime, trace, ticks, i);
    EndingsAreHandled(cfg, trace, st, i);
    Placed(cfg, trace, st, i);
    assert AnsweredAt(facts, lifetime, trace, ticks, i + 1);
    if trace[i].outcome.Answered? { CheckFollows(cfg, trace, st, i); }
  }

  /** At an MFA prompt of the gate: a code entered is validated next; PF3 re-arms the pre-auth regime and goes
      back to the login screen; idling logs out; breaking off ends the connection. */
  lemma MfaAnswersAreFollowed(cfg: Config, facts: nat -> Facts, lifetime: nat, trace: seq<Obs>,
                              st: seq<Progress>, ticks: seq<nat>, i: nat)
    requires Complete(cfg, trace, st) && FactsInOrder(facts, lifetime, trace, ticks)
    requires i < |trace| && (IsScreen(trace[i], VerifyMfa) || (IsScreen(trace[i], EnrollMfa) && AtGate(st[i].phase)))
    ensures i + 1 < |trace|
    ensures var f := facts(ticks[i]);
            if !Alive(f, lifetime, ticks[i]) then IsAudit(trace[i + 1], Disconnect)
            else match f.reply
                 case Entered => trace[i + 1] == CodeChecked(facts(ticks[i] + 1).code)
                 case PF3 => trace[i + 1].Armed? && i + 2 < |trace| && trace[i + 2] == LoginEntry
                 case _ => IsAudit(trace[i + 1], Logout)
  {
    assert AnsweredAt(facts, lifetime, trace, ticks, i);
    EndingsAreHandled(cfg, trace, st, i);
    Placed(cfg, trace, st, i);
    assert AnsweredAt(facts, lifetime, trace, ticks, i + 1);
    if trace[i].outcome.Answered? { CodeFollows(cfg, trace, st, i); }
  }

  /** At the menu: quitting and idling log out; a service picked is bridged to, between its two events, with
      the cause the bridger gives; the admin and settings entries open their screens if and only if this
      login has the right; anything else shows the menu again. */
  lemma MenuAnswersAreFollowed(cfg: Config, facts: nat -> Facts, lifetime: nat, trace: seq<Obs>,
                               st: seq<Progress>, ticks: seq<nat>, i: nat)
    requires Complete(cfg, trace, st) && FactsInOrder(facts, lifetime, trace, ticks)
    requires i < |trace| && IsScreen(trace[i], Menu)
    ensures i + 1 < |trace|
    ensures var f := facts(ticks[i]);
            if !Alive(f, lifetime, ticks[i]) then IsAudit(trace[i + 1], Disconnect)
            else if f.reply.Expired? || f.menu.Quit? then IsAudit(trace[i + 1], Logout)
            else if f.menu.Service? && f.menu.selected.Some? then
              && BridgeAt(trace, i + 1) && trace[i + 1].service == f.menu.selected.value
              && trace[i + 2].cause == facts(ticks[i] + 1).cause
            else exists a: nat, l: nat ::
              && SameLogin(trace, a, i) && TheLockRead(trace, a, l, i)
              && if f.menu.Admin? && cfg.hasAdmin && AccountedAdmin(trace, a) then IsScreen(trace[i + 1], AdminScreen)
                 else if f.menu.UserSettings? && !trace[l].locked then IsLoading(trace[i + 1])
                 else IsScreen(trace[i + 1], Menu)
  {
    assert AnsweredAt(facts, lifetime, trace, ticks, i);
    EndingsAreHandled(cfg, trace, st, i);
    Placed(cfg, trace, st, i);
    var out := trace[i].outcome;
    if out.Picked? {
      PickFollows(cfg, trace, st, i);
      BridgeEventsPair(cfg, trace, st, i + 1);
      assert AnsweredAt(facts, lifetime, trace, ticks, i + 1);
      assert AnsweredAt(facts, lifetime, trace, ticks, i + 2);
    } else if Plain(out) {
      MenuChoicesAreHonoured(cfg, trace, st, i);
    }
  }

  /** At the settings menu: a row's number opens its form, PF3 goes back to the menu, idling logs out. */
  lemma SettingsAnswersAreFollowed(cfg: Config, facts: nat -> Facts, lifetime: nat, trace: seq<Obs>,
                                   st: seq<Progress>, ticks: seq<nat>, i: nat)
    requires Complete(cfg, trace, st) && FactsInOrder(facts, lifetime, trace, ticks)
    requires i < |trace| && IsScreen(trace[i], Settings)
    ensures 0 < i < |trace| - 1
    ensures var f := facts(ticks[i]);
            if !Alive(f, lifetime, ticks[i]) then IsAudit(trace[i + 1], Disconnect)
            else match f.reply
                 case PF3 => IsScreen(trace[i + 1], Menu)
                 case Entered =>
                   IsScreen(trace[i + 1], PasswordForm) <==>
                     || f.option == 1 || (f.option == 2 && cfg.mfa)
                     || (f.option == 3 && cfg.mfa && trace[i - 1] == UserRead(true, false))
                 case _ => IsAudit(trace[i + 1], Logout)
  {
    assert AnsweredAt(facts, lifetime, trace, ticks, i);
    EndingsAreHandled(cfg, trace, st, i);
    Placed(cfg, trace, st, i);
    if trace[i].outcome.OptionChosen? { RowsOpenForms(cfg, trace, st, i); }
    if trace[i].outcome.Back? { MenuFollows(cfg, trace, st, i); }
  }

  /** How a flow entered from the menu, or the gate, ended. */
  datatype Ending = Done | Cancelled | Broke(timeout: bool)

  class Session {
    const cfg: Config
    const client: IdleConnection
    const facts: nat -> Facts
    const lifetime: nat
    var tick: nat
    var trace: seq<Obs>
    var actor: string
    ghost var progress: seq<Progress>
    ghost var at: Progress
    ghost var ticks: seq<nat>

    ghost predicate Valid()
      reads this
    {
      && Acceptable(cfg, trace, progress) && at == progress[|trace|]
      && FactsInOrder(facts, lifetime, trace, ticks) && tick == ticks[|trace|]
    }

    /** The phase and what is owed; the trail's actor is the user logged in. */
    ghost predicate In(p: Phase, d: Debt)
      reads this
    {
      at.phase == p && at.debt == d && actor == at.known.user
    }

    /** Past the gate, with nothing owed. */
    ghost predicate Here(p: Place)
      reads this
    {
      In(Passed, Nothing) && at.place == p
    }

    ghost predicate PreAuth()
      reads this, client
    {
      Serving(cfg) ==> at.known.armed == Some(Regime(client.idle, client.hard))
    }

    ghost predicate PostAuth()
      reads this, client
    {
      Serving(cfg) ==> client.idle == cfg.idle && client.hard == Never
    }

    /** Nothing about who is logged in, or what was learnt at this login, has changed. */
    twostate predicate SameUser()
      reads this
    {
      && tick >= old(tick)
      && at.known.user == old(at.known.user) && at.known.admin == old(at.known.admin)
      && at.known.unlocked == old(at.known.unlocked)
    }

    constructor (cfg: Config, client: IdleConnection, facts: nat -> Facts, lifetime: nat)
      ensures Valid() && trace == [] && actor == "" && tick == 0
      ensures this.cfg == cfg && this.client == client
    {
      this.cfg, this.client, this.facts, this.lifetime := cfg, client, facts, lifetime;
      tick, trace, actor, progress, at, ticks := 0, [], "", [START], START, [0];
    }

    // ---------------------------------------------------------------- observations

    /** Whether the connection has outlived its lifetime. */
    predicate Dead()
      reads this
    {
      tick >= lifetime
    }

    method Emit(o: Obs)
      requires Valid() && Allows(cfg, at, o) && (Consumes(o) ==> Answers(facts(tick), Dead(), o))
      modifies `tick, `trace, `progress, `at, `ticks
      ensures Valid() && trace == old(trace) + [o]
      ensures at == Advanced(cfg, old(at), |old(trace)|, o)
      ensures tick == old(tick) + if Consumes(o) then 1 else 0
    {
      AcceptableSnoc(cfg, trace, progress, o);
      FactsSnoc(facts, lifetime, trace, ticks, o);
      at := Advanced(cfg, at, |trace|, o);
      progress := progress + [at];
      if Consumes(o) { tick := tick + 1; }
      ticks := ticks + [tick];
      trace := trace + [o];
    }

    /** The audit trail stamps its actor on every event. */
    method Record(kind: Kind, user: string, service: string)
      requires Valid() && AllowsAudit(at, kind, user, actor, service) && !kind.AdminChange?
      modifies `tick, `trace, `progress, `at, `ticks
      ensures Valid() && trace == old(trace) + [Audit(kind, user, actor, service)] && tick == old(tick)
      ensures at == Advanced(cfg, old(at), |old(trace)|, Audit(kind, user, actor, service))
    {
      Emit(Audit(kind, user, actor, service));
    }

    /** Shows a screen and waits. */
    method Prompt(screen: Screen) returns (out: Outcome, f: Facts)
      requires Valid() && AllowsScreen(cfg, at, screen)
      requires if screen.News? then at.debt.Announcing? else at.debt.Nothing?
      requires if screen.LoginScreen? then PreAuth() else PostAuth()
      modifies `tick, `trace, `progress, `at, `ticks
      ensures f == facts(old(tick)) && out == OutcomeOf(f, old(Dead()), screen)
      ensures Valid() && tick == old(tick) + 1
      ensures trace == old(trace) + [Shown(screen, Regime(client.idle, client.hard), out)]
      ensures at.phase == old(at.phase) && at.debt == DebtAfterPrompt(old(at), screen, out) && SameUser()
      ensures at.place == PlaceAfterPrompt(cfg, old(at), screen, out) && at.known.offered == old(at.known.offered)
      ensures screen.LoginScreen? ==> at.known.armed == old(at.known.armed)
      ensures screen.EnrollMfa? ==> at.known.proven == old(at.known.proven)
    {
      f := facts(tick);
      if Dead() || f.reply.Broken? {
        out := Failed;
      } else if f.reply.Expired? {
        out := TimedOut;
      } else if screen.Menu? {
        out := match f.menu
          case Quit => Back
          case Admin => AdminChosen
          case UserSettings => SettingsChosen
          case Service(Some(name)) => Picked(name)
          case _ => Answered("");
      } else if f.reply.PF3? && !screen.News? {
        out := Back;
      } else if screen.Settings? {
        out := OptionChosen(f.option);
      } else {
        out := Answered(if screen.LoginScreen? then f.typed else "");
      }
      Emit(Shown(screen, Regime(client.idle, client.hard), out));
    }

    /** Checks the credentials just entered, under the name they were entered for. */
    method CheckPassword(name: string) returns (v: AuthVerdict)
      requires Valid() && at.debt == Check(name)
      requires at.phase.AtLogin? || (at.phase.Passed? && at.place.Doing? && name == at.known.user)
      modifies `tick, `trace, `progress, `at, `ticks
      ensures v == facts(old(tick)).verdict && trace == old(trace) + [Checked(name, v)] && tick == old(tick) + 1
      ensures Valid() && SameUser() && at.known.armed == old(at.known.armed) && at.phase == old(at.phase)
      ensures at.debt == if at.phase.AtLogin? || v.Invalid? then Verdict(name, v) else Nothing
      ensures at.phase.Passed? ==> at.place == if v.Valid? then Proved(old(at.place).action) else old(at.place)
      ensures at.phase.Passed? && v.Valid? ==> at.known.proven && PasswordProven()
    {
      v := facts(tick).verdict;
      Emit(Checked(name, v));
      if at.phase.Passed? && v.Valid? { NoteProven(); }
    }

    /** A call outside the session; when it fails, the flow ends. */
    method Try(call: Call) returns (e: Ending)
      requires Valid() && AllowsCall(at, call) && actor == at.known.user
      requires !call.Changing? && !call.LoadingUser?
      modifies `tick, `trace, `progress, `at, `ticks
      ensures e == if facts(old(tick)).done then Done else Broke(facts(old(tick)).timeout)
      ensures trace == old(trace) + [if e.Done? then Went(call) else Trouble(call, e.timeout)]
      ensures at.place == if e.Done? && call.GeneratingSecret? && at.phase.Passed? then Enrolling else old(at.place)
      ensures Valid() && SameUser() && at.known.proven == old(at.known.proven) && at.known.armed == old(at.known.armed)
      ensures e.Done? ==> In(old(at.phase), if call.Storing? then Success
                                            else if call.Clearing? then Change(MfaCleared) else Nothing)
      ensures e.Broke? ==> In(old(at.phase), DebtAfterFailure(old(at.phase), call, e.timeout))
    {
      var f := facts(tick);
      if f.done {
        Emit(Went(call));
        return Done;
      }
      Emit(Trouble(call, f.timeout));
      return Broke(f.timeout);
    }

    /** Validates the code just entered; a refused one is audited. */
    method CheckCode() returns (v: CodeVerdict)
      requires Valid() && In(at.phase, Code) && (AtGate(at.phase) || Enrols(at))
      modifies `tick, `trace, `progress, `at, `ticks
      ensures v == facts(old(tick)).code && tick > old(tick)
      ensures Valid() && SameUser() && at.known.proven == old(at.known.proven)
      ensures In(old(at.phase), if v.Accepted? then Keep else Nothing) && at.place == old(at.place)
    {
      v := facts(tick).code;
      Emit(CodeChecked(v));
      if v.Refused? { Record(MfaFailed, actor, ""); }
    }

    /** Stores the accepted step and audits it as the given success. */
    method StoreCode(success: Kind) returns (e: Ending)
      requires Valid() && In(at.phase, Keep)
      requires if success.MfaSuccess? then at.phase.MustVerify?
               else success.MfaEnrolled? && (at.phase.MustEnroll? || Enrols(at))
      modifies `tick, `trace, `progress, `at, `ticks
      ensures e == if facts(old(tick)).done then Done else Broke(facts(old(tick)).timeout)
      ensures Valid() && SameUser() && at.known.proven == old(at.known.proven)
      ensures e.Done? ==> Here(if old(at.phase.Passed?) then SettingsDue else Entering) && Succeeded(success)
      ensures e.Broke? ==> In(old(at.phase), DebtAfterFailure(old(at.phase), Storing, e.timeout))
    {
      e := Try(Storing);
      if e.Done? {
        Record(success, actor, "");
        NoteSuccess(success);
      }
    }

    /** Judges the code just entered. Done: accepted, stored and audited. Cancelled: ask again. */
    method TryCode(success: Kind) returns (e: Ending)
      requires Valid() && In(at.phase, Code)
      requires if success.MfaSuccess? then at.phase.MustVerify?
               else success.MfaEnrolled? && (at.phase.MustEnroll? || Enrols(at))
      modifies `tick, `trace, `progress, `at, `ticks
      ensures Valid() && SameUser() && at.known.proven == old(at.known.proven)
      ensures e.Done? ==> Here(if old(at.phase.Passed?) then SettingsDue else Entering) && Succeeded(success)
      ensures e.Cancelled? ==> In(old(at.phase), Nothing) && at.place == old(at.place)
      ensures e.Broke? ==> In(old(at.phase), DebtAfterFailure(old(at.phase), Storing, e.timeout))
    {
      var verdict := CheckCode();
      if verdict.Accepted? {
        e := StoreCode(success);
      } else {
        e := Cancelled;
      }
    }

    /** Asks for a code. Cancelled: PF3. */
    method AskCode(screen: Screen) returns (e: Ending)
      requires Valid() && In(at.phase, Nothing) && AllowsScreen(cfg, at, screen) && PostAuth()
      requires screen.VerifyMfa? || screen.EnrollMfa?
      modifies `tick, `trace, `progress, `at, `ticks
      ensures Valid() && SameUser() && (screen.EnrollMfa? ==> at.known.proven == old(at.known.proven))
      ensures tick > old(tick) && (e.Done? ==> old(tick) < lifetime)
      ensures e.Done? ==> In(old(at.phase), Code) && at.place == old(at.place)
      ensures e.Cancelled? ==> if old(AtGate(at.phase)) then In(old(at.phase), Rearming) else Here(SettingsDue)
      ensures e.Broke? ==> In(old(at.phase), if e.timeout then Leaving else HangingUp)
    {
      var out, _ := Prompt(screen);
      e := if out.Failed? || out.TimedOut? then Broke(out.TimedOut?) else if out.Back? then Cancelled else Done;
    }

    /** One code prompt and what becomes of the code. Cancelled: PF3. `again` when the code was not
        accepted. */
    method CodeRound(screen: Screen, success: Kind) returns (e: Ending, again: bool)
      requires Valid() && In(at.phase, Nothing) && AllowsScreen(cfg, at, screen) && PostAuth()
      requires if screen.VerifyMfa? then success.MfaSuccess? else screen.EnrollMfa? && success.MfaEnrolled?
      modifies `tick, `trace, `progress, `at, `ticks
      ensures Valid() && SameUser() && (screen.EnrollMfa? ==> at.known.proven == old(at.known.proven))
      ensures again ==> In(old(at.phase), Nothing) && at.place == old(at.place)
      ensures again ==> old(tick) < lifetime && tick > old(tick)
      ensures !again && e.Done? ==> Here(if old(at.phase.Passed?) then SettingsDue else Entering) && Succeeded(success)
      ensures !again && e.Cancelled? ==>
                if old(AtGate(at.phase)) then In(old(at.phase), Rearming) else Here(SettingsDue)
      ensures !again && e.Broke? ==> In(old(at.phase), if e.timeout then Leaving else HangingUp)
    {
      e := AskCode(screen);
      if !e.Done? { return e, false; }
      e := TryCode(success);
      if e.Broke? && success.MfaSuccess? { e := Broke(false); }
      again := e.Cancelled?;
    }

    // ---------------------------------------------------------------- regimes

    method ArmPreAuth()
      requires Valid()
      requires || (at.phase.Unborn? && at.debt.Nothing?)
               || ((AtGate(at.phase) || at.phase.LoggedOut?) && at.debt.Rearming?)
      requires actor == at.known.user
      modifies this, client
      ensures Valid() && tick == old(tick) + 1 && PreAuth()
      ensures In(if old(at.phase.Unborn?) then Greeting else Returning, Nothing) && actor == old(actor)
    {
      var f := facts(tick);
      if cfg.wrapped {
        if cfg.trusted {
          client.SetWindow(0);
        } else if cfg.preAuthIdle > 0 {
          if cfg.preAuthMax > 0 {
            client.SetPreAuth(cfg.preAuthIdle, cfg.preAuthMax, f.now);
          } else {
            client.SetWindow(cfg.preAuthIdle);
          }
        }
      }
      Emit(Armed(f.now, Regime(client.idle, client.hard)));
    }

    method ArmPostAuth()
      modifies client
      ensures PostAuth()
    {
      if cfg.idle > 0 && cfg.wrapped { client.SetWindow(cfg.idle); }
    }

    method ArmBridge()
      modifies client
      ensures Serving(cfg) ==> Regime(client.idle, client.hard) == BridgeRegime(cfg)
    {
      if cfg.wrapped {
        if cfg.bridgeIdleExempt {
          client.SetWindow(0);
        } else if cfg.idle > 0 {
          client.SetWindow(cfg.idle);
        }
      }
    }

    /** The logout event and the way back to the login screen. */
    method LogOff()
      requires Valid() && (In(Passed, Leaving) || In(MustVerify, Leaving) || In(MustEnroll, Leaving))
      modifies this, client
      ensures Valid() && In(Returning, Nothing) && PreAuth() && tick >= old(tick)
    {
      Record(Logout, actor, "");
      ArmPreAuth();
    }

    // ---------------------------------------------------------------- login

    /** Returning to the login screen drops any prior principal. */
    method EnterLogin()
      requires Valid() && (In(Connected, Nothing) || In(Returning, Nothing))
      modifies `tick, `trace, `progress, `at, `ticks, `actor
      ensures Valid() && In(AtLogin, Nothing) && at.known.user == ""
      ensures at.known.armed == old(at.known.armed) && tick == old(tick)
    {
      actor := "";
      Emit(LoginEntry);
    }

    /** The event of a login verdict, under the account's name or the one typed. */
    method ReportLogin(v: AuthVerdict, typed: string)
      requires Valid() && In(AtLogin, Verdict(typed, v))
      modifies `tick, `trace, `progress, `at, `ticks, `actor
      ensures Valid() && at.known.armed == old(at.known.armed) && tick == old(tick)
      ensures trace == old(trace) + [Audit(EventOf(v), NameFor(typed, v), actor, "")]
      ensures v.Valid? ==> In(Authenticated, Nothing) && at.known.user == v.user
      ensures v.Valid? ==> at.known.admin == v.admin && !at.known.unlocked
      ensures !v.Valid? ==> In(AtLogin, Nothing) && at.known.user == old(at.known.user)
    {
      match v
      case Valid(user, _) =>
        actor := user;
        Record(AuthOK, user, "");
      case Unavailable =>
        Record(AuthError, typed, "");
      case Invalid =>
        Record(AuthFail, typed, "");
    }

    /** Loops the login screen until credentials are accepted, or the user quits or the connection
        fails. */
    method DoLogin() returns (ok: bool, username: string, admin: bool)
      requires Valid() && PreAuth() && (In(Connected, Nothing) || In(Returning, Nothing))
      modifies `tick, `trace, `progress, `at, `ticks, `actor
      ensures Valid() && tick > old(tick)
      ensures ok ==> In(Authenticated, Nothing) && at.known.user == username && at.known.admin == admin
      ensures ok ==> !at.known.unlocked && old(tick) < lifetime
      ensures !ok ==> In(AtLogin, HangingUp) && at.known.user == ""
    {
      EnterLogin();
      while true
        invariant Valid() && In(AtLogin, Nothing) && at.known.user == "" && PreAuth() && tick >= old(tick)
        decreases lifetime - tick
      {
        var out, _ := Prompt(LoginScreen);
        if !out.Answered? { return false, "", false; }
        var verdict := CheckPassword(out.name);
        ReportLogin(verdict, out.name);
        if verdict.Valid? { return true, verdict.user, verdict.admin; }
      }
    }

    // ---------------------------------------------------------------- the MFA gate

    method LoadUser() returns (row: Option<UserRow>)
      requires Valid() && In(Authenticated, Nothing) && cfg.mfa
      modifies `tick, `trace, `progress, `at, `ticks
      ensures row == facts(old(tick)).row && tick == old(tick) + 1
      ensures Valid() && SameUser()
      ensures row.None? ==> In(Authenticated, HangingUp)
      ensures row.Some? ==> In(if row.value.enrolled then MustVerify
                               else if row.value.required && !row.value.locked then MustEnroll else Passed, Nothing)
      ensures at.phase.Passed? ==> at.place.Entering?
    {
      var f := facts(tick);
      row := f.row;
      if row.None? {
        Emit(Trouble(LoadingUser, f.timeout));
      } else {
        Emit(GateRead(row.value.enrolled, row.value.required, row.value.locked));
      }
    }

    /** Done: on to the menu. Cancelled: back at the login screen. Broke: disconnect. */
    method MfaGate() returns (e: Ending)
      requires Valid() && In(Authenticated, Nothing) && PostAuth()
      modifies this, client
      ensures Valid() && tick >= old(tick)
      ensures e.Done? ==> Here(Entering) && PostAuth() && SameUser()
      ensures e.Cancelled? ==> In(Returning, Nothing) && PreAuth()
      ensures e.Broke? ==> InSession(at.phase) && In(at.phase, HangingUp) && SameUser()
    {
      if !cfg.mfa {
        Emit(GateOff);
        return Done;
      }
      var row := LoadUser();
      if row.None? { return Broke(false); }
      var u := row.value;
      if u.enrolled {
        e := MfaVerify();
      } else if u.required && !u.locked {
        e := MfaEnroll();
      } else {
        e := Done;
      }
    }

    method MfaVerify() returns (e: Ending)
      requires Valid() && In(MustVerify, Nothing) && PostAuth()
      modifies this, client
      ensures Valid() && tick >= old(tick)
      ensures e.Done? ==> Here(Entering) && PostAuth() && SameUser() && Succeeded(MfaSuccess)
      ensures e.Cancelled? ==> In(Returning, Nothing) && PreAuth()
      ensures e.Broke? ==> In(MustVerify, HangingUp) && SameUser()
    {
      e := Try(OpeningSecret);
      if e.Broke? { return Broke(false); }
      e := VerifyLoop();
      if e.Cancelled? {
        ArmPreAuth();
      } else if e == Broke(true) {
        LogOff();
        e := Cancelled;
      }
    }

    /** Prompts for a code until one is accepted and its step stored; the caller arms what a
        cancellation or a timeout needs. */
    method VerifyLoop() returns (e: Ending)
      requires Valid() && In(MustVerify, Nothing) && PostAuth()
      modifies `tick, `trace, `progress, `at, `ticks
      ensures Valid() && SameUser()
      ensures e.Done? ==> Here(Entering) && Succeeded(MfaSuccess)
      ensures e.Cancelled? ==> In(MustVerify, Rearming)
      ensures e.Broke? ==> In(MustVerify, if e.timeout then Leaving else HangingUp)
    {
      while true
        invariant Valid() && In(MustVerify, Nothing) && SameUser()
        decreases lifetime - tick
      {
        var again;
        e, again := CodeRound(VerifyMfa, MfaSuccess);
        if !again { return; }
      }
    }

    /** The last thing that happened is this success event, for a code entered, accepted and stored. */
    ghost predicate Succeeded(success: Kind)
      reads this
    {
      trace != [] && IsAudit(trace[|trace| - 1], success) && CodeStored(trace, |trace| - 1)
    }

    lemma NoteSuccess(success: Kind)
      requires Valid() && trace != [] && IsAudit(trace[|trace| - 1], success)
      requires success.MfaSuccess? || success.MfaEnrolled?
      ensures Succeeded(success)
    {
      SuccessNeedsStoredCode(cfg, trace, progress, |trace| - 1);
    }

    /** Forced first enrolment at login. */
    method MfaEnroll() returns (e: Ending)
      requires Valid() && In(MustEnroll, Nothing) && PostAuth()
      modifies this, client
      ensures Valid() && tick >= old(tick)
      ensures e.Done? ==> Here(Entering) && PostAuth() && SameUser() && Succeeded(MfaEnrolled)
      ensures e.Cancelled? ==> In(Returning, Nothing) && PreAuth()
      ensures e.Broke? ==> In(MustEnroll, HangingUp) && SameUser()
    {
      e := Try(GeneratingSecret);
      if e.Broke? { return Broke(false); }
      e := ConfirmEnroll();
      if e.Cancelled? {
        ArmPreAuth();
      } else if e == Broke(true) {
        LogOff();
        e := Cancelled;
      }
    }

    /** Prompts for a code under a new secret until one is accepted and stored. Arms nothing: the
        caller decides what a cancellation or an error means. */
    method ConfirmEnroll() returns (e: Ending)
      requires Valid() && PostAuth()
      requires In(MustEnroll, Nothing) || (Here(Enrolling) && at.known.unlocked && at.known.proven)
      modifies `tick, `trace, `progress, `at, `ticks
      ensures Valid() && SameUser()
      ensures e.Done? ==> Here(if old(at.phase.Passed?) then SettingsDue else Entering)
      ensures e.Done? ==> Succeeded(MfaEnrolled) && at.known.proven == old(at.known.proven)
      ensures e.Cancelled? ==> if old(at.phase.MustEnroll?) then In(MustEnroll, Rearming) else Here(SettingsDue)
      ensures e.Broke? ==> In(old(at.phase), if e.timeout then Leaving else HangingUp)
    {
      while true
        invariant Valid() && In(old(at.phase), Nothing) && SameUser() && at.known.proven == old(at.known.proven)
        invariant at.place == old(at.place)
        decreases lifetime - tick
      {
        var again;
        e, again := CodeRound(EnrollMfa, MfaEnrolled);
        if !again { return; }
      }
    }

    // ---------------------------------------------------------------- after the gate

    method MaybeShowNews() returns (e: Ending)
      requires Valid() && Here(Entering) && PostAuth()
      modifies this, client
      ensures Valid() && tick >= old(tick)
      ensures e.Done? ==> Here(NewsDone) && PostAuth() && SameUser()
      ensures e.Cancelled? ==> In(Returning, Nothing) && PreAuth()
      ensures e.Broke? ==> In(Passed, HangingUp) && SameUser()
    {
      var present := facts(tick).news;
      Emit(NewsRead(present));
      if !present { return Done; }
      var out, _ := Prompt(News);
      if out.Failed? { return Broke(false); }
      if out.TimedOut? {
        LogOff();
        return Cancelled;
      }
      return Done;
    }

    /** The account's password was checked again in this login, and only enrolment screens were shown
        since. */
    ghost predicate PasswordProven()
      reads this
    {
      exists p: nat :: Proven(trace, at.known.authAt, p, |trace|)
    }

    lemma NoteProven()
      requires Valid() && at.phase.Passed? && at.known.proven
      ensures PasswordProven()
    {
      RightsFactsHold(cfg, trace, progress, |trace|);
      assert Proven(trace, at.known.authAt, at.known.provenAt, |trace|);
    }

    /** Checks the current password just entered on a form; a wrong one is audited. */
    method RecheckPassword() returns (v: AuthVerdict)
      requires Valid() && In(Passed, Check(actor)) && at.place.Doing?
      modifies `tick, `trace, `progress, `at, `ticks
      ensures v == facts(old(tick)).verdict && tick == old(tick) + 1
      ensures Valid() && SameUser()
      ensures Here(if v.Valid? then Proved(old(at.place).action) else old(at.place))
      ensures v.Valid? ==> at.known.proven && PasswordProven()
    {
      v := CheckPassword(actor);
      if v.Invalid? { Record(AuthFail, actor, ""); }
    }

    /** A form that asks for the current password, until it is right or the user leaves. */
    method StepUp(ghost action: Action) returns (e: Ending)
      requires Valid() && Here(Doing(action)) && PostAuth() && at.known.unlocked
      modifies `tick, `trace, `progress, `at, `ticks
      ensures Valid() && SameUser()
      ensures e.Done? ==> Here(Proved(action)) && at.known.proven && PasswordProven()
      ensures e.Done? ==> old(tick) < lifetime && tick > old(tick)
      ensures e.Cancelled? ==> Here(SettingsDue)
      ensures e.Broke? ==> In(Passed, if e.timeout then Leaving else HangingUp)
    {
      while true
        invariant Valid() && Here(Doing(action)) && SameUser()
        decreases lifetime - tick
      {
        var out, _ := Prompt(PasswordForm);
        if out.Failed? || out.TimedOut? { return Broke(out.TimedOut?); }
        if out.Back? { return Cancelled; }
        var verdict := RecheckPassword();
        if verdict.Valid? { return Done; }
      }
    }

    /** The form is shown again until the current password is right and the new one is accepted and
        stored. Done: the change was stored and recorded after the current password was proven. */
    method ChangePasswordForm() returns (e: Ending)
      requires Valid() && Here(Doing(ChangePassword)) && PostAuth() && at.known.unlocked
      modifies `tick, `trace, `progress, `at, `ticks
      ensures Valid() && SameUser()
      ensures !e.Broke? ==> Here(SettingsDue)
      ensures e.Done? ==> Changed(PasswordSelf, Changing)
      ensures e.Broke? ==> In(Passed, if e.timeout then Leaving else HangingUp)
    {
      while true
        invariant Valid() && Here(Doing(ChangePassword)) && SameUser()
        decreases lifetime - tick
      {
        e := StepUp(ChangePassword);
        if !e.Done? { return; }
        var stored := StoreNewPassword();
        if stored { return; }
      }
    }

    /** The new password is accepted, stored and audited, or the form goes on. */
    method StoreNewPassword() returns (stored: bool)
      requires Valid() && Here(Proved(ChangePassword)) && at.known.proven
      modifies `tick, `trace, `progress, `at, `ticks
      ensures stored == facts(old(tick)).done && tick == old(tick) + 1
      ensures Valid() && SameUser()
      ensures stored ==> Here(SettingsDue) && Changed(PasswordSelf, Changing)
      ensures !stored ==> Here(Doing(ChangePassword))
    {
      stored := facts(tick).done;
      if stored {
        Emit(Went(Changing));
        Record(PasswordSelf, actor, "");
        NoteProven();
      } else {
        Emit(Declined);
      }
    }

    /** The last two things that happened are this call's success and its event, and the password had
        been proven. */
    ghost predicate Changed(kind: Kind, call: Call)
      reads this
    {
      && |trace| >= 2 && trace[|trace| - 1] == Audit(kind, actor, actor, "") && trace[|trace| - 2] == Went(call)
      && PasswordProven()
    }

    method SelfMfaEnroll(ghost action: Action) returns (e: Ending)
      requires Valid() && (action.Enroll? || action.Reenroll?) && Here(Doing(action)) && PostAuth() && at.known.unlocked
      modifies `tick, `trace, `progress, `at, `ticks
      ensures Valid() && SameUser()
      ensures !e.Broke? ==> Here(SettingsDue)
      ensures e.Done? ==> Succeeded(MfaEnrolled) && PasswordProven()
      ensures e.Broke? ==> In(Passed, if e.timeout then Leaving else HangingUp)
    {
      e := StepUp(action);
      if !e.Done? { return; }
      e := Try(GeneratingSecret);
      if e.Broke? { return; }
      e := ConfirmEnroll();
      if e.Done? { NoteProven(); }
    }

    method SelfMfaDisable(u: UserRow) returns (e: Ending)
      requires Valid() && Here(Doing(Disable)) && PostAuth() && at.known.unlocked
      modifies `tick, `trace, `progress, `at, `ticks
      ensures Valid() && SameUser()
      ensures u.required ==> e.Done? && trace == old(trace)
      ensures !e.Broke? && !u.required ==> Here(SettingsDue)
      ensures e.Done? && !u.required ==> Changed(MfaCleared, Clearing)
      ensures e.Broke? ==> In(Passed, if e.timeout then Leaving else HangingUp)
    {
      if u.required { return Done; }
      e := StepUp(Disable);
      if e.Done? { e := ClearSecret(); }
    }

    method ClearSecret() returns (e: Ending)
      requires Valid() && Here(Proved(Disable)) && at.known.proven
      modifies `tick, `trace, `progress, `at, `ticks
      ensures e == if facts(old(tick)).done then Done else Broke(facts(old(tick)).timeout)
      ensures Valid() && SameUser()
      ensures e.Done? ==> Here(SettingsDue) && Changed(MfaCleared, Clearing)
      ensures e.Broke? ==> In(Passed, if e.timeout then Leaving else HangingUp)
    {
      e := Try(Clearing);
      if e.Done? {
        Record(MfaCleared, actor, "");
        NoteProven();
      }
    }

    /** The account as stored now; an unreadable one ends the flow. */
    method ReloadUser() returns (row: Option<UserRow>, timeout: bool)
      requires Valid() && Here(SettingsDue)
      modifies `tick, `trace, `progress, `at, `ticks
      ensures row == facts(old(tick)).row && timeout == facts(old(tick)).timeout && tick == old(tick) + 1
      ensures Valid() && SameUser()
      ensures row.None? ==> In(Passed, if timeout then Leaving else HangingUp)
      ensures row.Some? ==>
                Here(SettingsOpen) && at.known.offered == Actions(cfg.mfa, row.value.enrolled, row.value.required)
    {
      var f := facts(tick);
      row, timeout := f.row, f.timeout;
      if row.None? {
        Emit(Trouble(LoadingUser, timeout));
      } else {
        Emit(UserRead(row.value.enrolled, row.value.required));
      }
    }

    /** Carries out the row chosen. */
    method Perform(action: Action, u: UserRow) returns (e: Ending)
      requires Valid() && Here(Doing(action)) && PostAuth() && at.known.unlocked
      requires action in Actions(cfg.mfa, u.enrolled, u.required)
      modifies `tick, `trace, `progress, `at, `ticks
      ensures Valid() && SameUser()
      ensures !e.Broke? ==> Here(SettingsDue)
      ensures e.Broke? ==> In(Passed, if e.timeout then Leaving else HangingUp)
    {
      match action
      case ChangePassword => e := ChangePasswordForm();
      case Disable => e := SelfMfaDisable(u);
      case _ => e := SelfMfaEnroll(action);
    }

    method UserSettingsMenu() returns (e: Ending)
      requires Valid() && Here(SettingsDue) && PostAuth() && at.known.unlocked
      modifies `tick, `trace, `progress, `at, `ticks
      ensures Valid() && SameUser()
      ensures !e.Broke? ==> Here(AtMenu)
      ensures e.Broke? ==> In(Passed, if e.timeout then Leaving else HangingUp)
    {
      while true
        invariant Valid() && Here(SettingsDue) && SameUser()
        decreases lifetime - tick
      {
        var action, u;
        e, action, u := AskOption();
        if e.Broke? { return; }
        if e.Cancelled? { return Done; }
        if action.Some? {
          e := Perform(action.value, u);
          if e.Broke? { return; }
        }
      }
    }

    /** Loads the account and asks for a row. Done: a row was chosen, or none that is there.
        Cancelled: PF3. */
    method AskOption() returns (e: Ending, action: Option<Action>, u: UserRow)
      requires Valid() && Here(SettingsDue) && PostAuth() && at.known.unlocked
      modifies `tick, `trace, `progress, `at, `ticks
      ensures Valid() && SameUser()
      ensures e.Done? ==> Here(if action.Some? then Doing(action.value) else SettingsDue)
      ensures e.Done? && action.Some? ==> action.value in Actions(cfg.mfa, u.enrolled, u.required)
      ensures e.Done? ==> old(tick) < lifetime && tick > old(tick)
      ensures e.Cancelled? ==> Here(AtMenu)
      ensures e.Broke? ==> In(Passed, if e.timeout then Leaving else HangingUp)
    {
      action, u := None, UserRow(false, false, false);
      var row, timeout := ReloadUser();
      if row.None? { return Broke(timeout), action, u; }
      u := row.value;
      var actions := Actions(cfg.mfa, u.enrolled, u.required);
      var out, _ := Prompt(Settings);
      if out.Failed? || out.TimedOut? { return Broke(out.TimedOut?), action, u; }
      if out.Back? { return Cancelled, action, u; }
      if 1 <= out.option <= |actions| { action := Some(actions[out.option - 1]); }
      return Done, action, u;
    }

    /** The admin screens, as a run of prompts and audit events that begins with a prompt. */
    method AdminFlow() returns (e: Ending)
      requires Valid() && Here(AdminDue) && PostAuth() && at.known.admin && cfg.hasAdmin
      modifies `tick, `trace, `progress, `at, `ticks
      ensures Valid() && SameUser()
      ensures !e.Broke? ==> Here(InAdmin)
      ensures e.Broke? ==> In(Passed, if e.timeout then Leaving else HangingUp)
    {
      var shown := false;
      while true
        invariant Valid() && Here(if shown then InAdmin else AdminDue) && SameUser()
        decreases lifetime - tick
      {
        var next := facts(tick).admin;
        if shown && next.AdminLeaves? { return Done; }
        if shown && next.AdminRecords? && !Dead() {
          Emit(Audit(AdminChange, next.username, actor, ""));
        } else {
          var out, _ := Prompt(AdminScreen);
          if out.Failed? || out.TimedOut? { return Broke(out.TimedOut?); }
          shown := true;
        }
      }
    }

    method OpenBridge(service: string)
      requires Valid() && In(Passed, Starting(service)) && at.place.AtMenu?
      modifies this, client
      ensures Valid() && SameUser() && In(BridgeOpening(service), Nothing) && at.place.AtMenu? && tick == old(tick)
      ensures Serving(cfg) ==> Regime(client.idle, client.hard) == BridgeRegime(cfg)
    {
      Record(BridgeStart, actor, service);
      ArmBridge();
    }

    /** Runs the service picked at the menu; true when the client closed. */
    method BridgeTo(service: string) returns (closed: bool)
      requires Valid() && In(Passed, Starting(service)) && at.place.AtMenu?
      modifies this, client
      ensures closed == facts(old(tick)).cause.ClientClosed?
      ensures Valid() && SameUser()
      ensures closed ==> In(Passed, HangingUp)
      ensures !closed ==> Here(AtMenu) && PostAuth()
    {
      OpenBridge(service);
      var cause := facts(tick).cause;
      Emit(Bridged(service, Regime(client.idle, client.hard), cause));
      Record(BridgeEnd, actor, service);
      if cause.ClientClosed? { return true; }
      ArmPostAuth();
      return false;
    }

    /** The service menu. True: back at the login screen. False: disconnect. */
    method MenuLoop(isAdmin: bool, settingsLocked: bool) returns (back: bool)
      requires Valid() && Here(AtMenu) && PostAuth()
      requires isAdmin == (at.known.admin && cfg.hasAdmin) && settingsLocked == !at.known.unlocked
      modifies this, client
      ensures Valid() && tick >= old(tick)
      ensures back ==> In(Returning, Nothing) && PreAuth()
      ensures !back ==> In(Passed, HangingUp) && SameUser()
    {
      while true
        invariant Valid() && (Here(AtMenu) || Here(InAdmin)) && PostAuth() && SameUser()
        decreases lifetime - tick
      {
        var e, out := AskMenu();
        if e.Done? { e := Follow(out, isAdmin, settingsLocked); }
        if e == Broke(true) {
          LogOff();
          return true;
        }
        if e == Broke(false) { return false; }
      }
    }

    /** The menu has been left with this outcome, which is to be followed. */
    ghost predicate Chosen(out: Outcome)
      reads this
    {
      && In(Passed, if out.Picked? then Starting(out.service) else Nothing)
      && at.place == PlaceAfterPrompt(cfg, at, Menu, out)
    }

    /** Broke(true): the user leaves, by PF3 or by idling. */
    method AskMenu() returns (e: Ending, out: Outcome)
      requires Valid() && (Here(AtMenu) || Here(InAdmin)) && PostAuth()
      modifies `tick, `trace, `progress, `at, `ticks
      ensures Valid() && SameUser() && !e.Cancelled?
      ensures e.Done? ==> Chosen(out) && old(tick) < lifetime && tick > old(tick)
      ensures e.Broke? ==> In(Passed, if e.timeout then Leaving else HangingUp)
    {
      var f;
      out, f := Prompt(Menu);
      e := if out.Failed? || out.TimedOut? || out.Back? then Broke(!out.Failed?) else Done;
    }

    /** Does what was chosen at the menu. */
    method Follow(out: Outcome, isAdmin: bool, settingsLocked: bool) returns (e: Ending)
      requires Valid() && Chosen(out) && PostAuth()
      requires isAdmin == (at.known.admin && cfg.hasAdmin) && settingsLocked == !at.known.unlocked
      modifies this, client
      ensures Valid() && SameUser()
      ensures !e.Broke? ==> (Here(AtMenu) || Here(InAdmin)) && PostAuth()
      ensures e.Broke? ==> In(Passed, if e.timeout then Leaving else HangingUp)
    {
      e := Done;
      if out.Picked? {
        var closed := BridgeTo(out.service);
        if closed { e := Broke(false); }
      } else if out.AdminChosen? && isAdmin {
        e := AdminFlow();
      } else if out.SettingsChosen? && !settingsLocked {
        e := UserSettingsMenu();
      }
    }

    /** Read once per login, like the admin right; an unreadable account counts as unlocked. */
    method ReadLock() returns (locked: bool)
      requires Valid() && Here(NewsDone)
      modifies `tick, `trace, `progress, `at, `ticks
      ensures locked <==> facts(old(tick)).row.Some? && facts(old(tick)).row.value.locked
      ensures Valid() && Here(AtMenu) && tick > old(tick)
      ensures at.known.user == old(at.known.user) && at.known.admin == old(at.known.admin)
      ensures at.known.unlocked == !locked
    {
      var f := facts(tick);
      locked := f.row.Some? && f.row.value.locked;
      Emit(LockRead(locked));
    }

    /** The connect event and the terminal negotiation. */
    method Greet() returns (ok: bool)
      requires Valid() && trace == [] && actor == ""
      modifies this, client
      ensures Valid() && at.known.user == "" && ok == facts(1).done
      ensures ok ==> In(Connected, Nothing) && PreAuth()
      ensures !ok ==> In(Connected, HangingUp)
    {
      assert at == START && tick == 0;
      ArmPreAuth();
      Record(Connect, "", "");
      var e := Try(Negotiating);
      ok := e.Done?;
    }

    /** One login after another, until something ends the connection. */
    method ServeLogins() returns (currentUser: string)
      requires Valid() && In(Connected, Nothing) && PreAuth()
      modifies this, client
      ensures Valid() && In(at.phase, HangingUp) && (at.phase.AtLogin? || InSession(at.phase))
      ensures currentUser == at.known.user
    {
      currentUser := "";
      while true
        invariant Valid() && PreAuth() && (In(Connected, Nothing) || In(Returning, Nothing)) && currentUser == ""
        decreases lifetime - tick
      {
        var ok, username, admin := DoLogin();
        if !ok { return; }
        currentUser := username;
        ArmPostAuth();
        var gate := MfaGate();
        if gate.Broke? { return; }
        if gate.Cancelled? {
          currentUser := "";
          continue;
        }
        var news := MaybeShowNews();
        if news.Broke? { return; }
        if news.Cancelled? {
          currentUser := "";
          continue;
        }
        var isAdmin := cfg.hasAdmin && admin;
        var settingsLocked := ReadLock();
        var back := MenuLoop(isAdmin, settingsLocked);
        if !back { return; }
        currentUser := "";
      }
    }

    /** The whole life of the connection. Its trace is acceptable and complete, so every theorem about
        such traces holds of it, and everything in it that comes from outside is the next of the facts. */
    method Run()
      requires Valid() && trace == [] && actor == ""
      modifies this, client
      ensures Complete(cfg, trace, progress)
      ensures FactsInOrder(facts, lifetime, trace, ticks)
    {
      var currentUser := "";
      var ok := Greet();
      if ok { currentUser := ServeLogins(); }
      Record(Disconnect, currentUser, "");
    }
  }
}
