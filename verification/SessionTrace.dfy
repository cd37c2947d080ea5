/** What may happen in the life of one connection (internal/server/session.go,
    internal/server/auditor.go), as a trace of audit events, prompts and their outcomes, credential
    and code checks, bridges, regime changes and the stored facts read on the way.

    `Allows` says, one observation at a time, which traces are acceptable; the session class is proved
    to produce only such traces. The lemmas of this module then say what every acceptable trace
    guarantees, in terms of positions in the trace alone. */
module SessionTrace {
  import opened IdleConn
  import opened Prelude
  import BridgeRace
  import Relay

  datatype Kind =
    | Connect | AuthOK | AuthFail | AuthError | BridgeStart | BridgeEnd | Logout | Disconnect
    | MfaEnrolled | MfaSuccess | MfaFailed | MfaCleared | PasswordSelf
    | AdminChange                              // any of the admin screens' events

  datatype Screen =
    | LoginScreen | EnrollMfa | VerifyMfa | News | Menu | AdminScreen | Settings
    | PasswordForm                             // a self-service form asking for the current password

  /** How a prompt ended; `name` is the user ID typed at the login screen, `Back` is PF3, `Failed` any
      error but a timeout. */
  datatype Outcome =
    | Answered(name: string)
    | Picked(service: string)                  // a service, at the menu
    | AdminChosen | SettingsChosen             // the other menu entries
    | OptionChosen(option: int)                // a row of the settings menu; none has number 0
    | Back | TimedOut | Failed

  datatype Action = ChangePassword | Enroll | Reenroll | Disable

  /** The self-service rows shown for an account. */
  function Actions(mfa: bool, enrolled: bool, required: bool): seq<Action> {
    if !mfa then [ChangePassword]
    else if !enrolled then [ChangePassword, Enroll]
    else if required then [ChangePassword, Reenroll]
    else [ChangePassword, Reenroll, Disable]
  }

  /** Calls whose success or failure decides what comes next. */
  datatype Call =
    | Negotiating | LoadingUser | OpeningSecret | GeneratingSecret
    | Storing                                  // sealing and storing an accepted step
    | Changing                                 // accepting and storing a new password
    | Clearing                                 // removing a stored secret

  /** What checking credentials says; `admin` is ZZADMIN membership as of the check. */
  datatype AuthVerdict = Valid(user: string, admin: bool) | Invalid | Unavailable

  datatype CodeVerdict = Accepted | Refused | Unusable

  /** The sliding window and the ceiling in force. */
  datatype Regime = Regime(idle: int, ceiling: Deadline)

  datatype Obs =
    | Audit(kind: Kind, user: string, actor: string, service: string)
    | Shown(screen: Screen, regime: Regime, outcome: Outcome)
    | Checked(name: string, verdict: AuthVerdict)   // this name's credentials were checked
    | CodeChecked(code: CodeVerdict)           // a one-time code was validated
    | Went(call: Call)                         // the call succeeded
    | Trouble(call: Call, timeout: bool)       // the call failed
    | Declined                                 // the form refused, or could not store, the new password
    | NewsRead(present: bool)
    | UserRead(enrolled: bool, required: bool)      // the account, for the settings menu
    | Bridged(service: string, regime: Regime, cause: Relay.Cause)
    | Armed(at: int, regime: Regime)           // the pre-auth regime was (re)installed
    | LoginEntry                               // the login screen was entered
    | GateOff                                  // no MFA cipher
    | GateRead(secret: bool, required: bool, locked: bool)
    | LockRead(locked: bool)                   // the self-service lock as of this login

  datatype Config = Config(
    wrapped: bool,                             // the connection enforces idle regimes
    trusted: bool,
    preAuthIdle: int,
    preAuthMax: int,
    idle: int,
    bridgeIdleExempt: bool,
    mfa: bool,                                 // a cipher is configured
    hasAdmin: bool)                            // an admin presenter is configured

  /** The limits a serving gateway is started with. */
  predicate Serving(cfg: Config) { cfg.wrapped && cfg.preAuthIdle > 0 && cfg.preAuthMax > 0 && cfg.idle > 0 }

  function LoginRegime(cfg: Config, now: int): Regime {
    if cfg.trusted then Regime(0, Never) else Regime(cfg.preAuthIdle, At(now + cfg.preAuthMax))
  }

  function BridgeRegime(cfg: Config): Regime { Regime(if cfg.bridgeIdleExempt then 0 else cfg.idle, Never) }

  // ---------------------------------------------------------------- acceptance

  datatype Phase =
    | Unborn | Greeting | Connected | AtLogin
    | Authenticated | MustVerify | MustEnroll | Passed
    | BridgeOpening(service: string) | BridgeClosing(service: string, gone: bool)
    | LoggedOut | Returning | Closed

  /** Where a session that has passed the gate is. */
  datatype Place =
    | Entering                                 // the news has yet to be read
    | NewsDone                                 // the self-service lock has yet to be read
    | AtMenu
    | AdminDue | InAdmin                       // admin screens to be opened, and open
    | SettingsDue | SettingsOpen               // settings menu to be loaded, and loaded
    | Doing(action: Action)                    // its password form
    | Proved(action: Action)                   // the password was accepted
    | Enrolling

  predicate InSession(p: Phase) { p.Authenticated? || p.MustVerify? || p.MustEnroll? || p.Passed? }

  predicate AtGate(p: Phase) { p.MustVerify? || p.MustEnroll? }

  /** What the last observation obliges the next one to be. */
  datatype Debt =
    | Nothing
    | Check(name: string)                      // check the credentials entered
    | Code                                     // validate the code entered
    | Verdict(name: string, verdict: AuthVerdict)   // audit this verdict
    | Keep                                     // store the accepted step
    | Refusal                                  // audit mfa_failed
    | Success                                  // audit mfa_success or mfa_enrolled
    | Change(kind: Kind)                       // audit the change made
    | Announcing                               // show the news
    | Starting(service: string)                // audit bridge_start
    | Leaving                                  // audit logout
    | Rearming                                 // install the pre-auth regime
    | HangingUp                                // audit disconnect

  /** What was learnt so far, with the positions of the latest auth_ok, gate reading, gate pass, arming,
      news and lock readings and step-up. */
  datatype Known = Known(
    user: string, admin: bool, unlocked: bool, proven: bool, offered: seq<Action>, armed: Option<Regime>,
    authAt: nat, gateAt: nat, passAt: nat, armedAt: nat, newsAt: nat, lockAt: nat, provenAt: nat)

  datatype Progress = Progress(phase: Phase, debt: Debt, place: Place, known: Known)

  const START := Progress(Unborn, Nothing, Entering, Known("", false, false, false, [], None, 0, 0, 0, 0, 0, 0, 0))

  /** Self-service enrolment is under way. */
  predicate Enrols(m: Progress) { m.phase.Passed? && m.place.Enrolling? }

  predicate AllowsAudit(m: Progress, kind: Kind, user: string, actor: string, service: string) {
    match kind
    case Connect => m.phase.Greeting? && m.debt.Nothing? && user == actor == ""
    case AuthOK =>
      m.phase.AtLogin? && m.debt.Verdict? && m.debt.verdict.Valid? && m.debt.verdict.user == user == actor
    case AuthFail =>
      && (m.phase.AtLogin? || (m.phase.Passed? && m.place.Doing? && user == m.known.user))
      && m.debt == Verdict(user, Invalid) && actor == m.known.user
    case AuthError => m.phase.AtLogin? && m.debt == Verdict(user, Unavailable) && actor == m.known.user
    case BridgeStart =>
      m.phase.Passed? && m.place.AtMenu? && m.debt == Starting(service) && user == actor == m.known.user
    case BridgeEnd =>
      && m.phase.BridgeClosing? && m.place.AtMenu? && m.debt.Nothing?
      && m.phase.service == service && user == actor == m.known.user
    case Logout => (AtGate(m.phase) || m.phase.Passed?) && m.debt.Leaving? && user == actor == m.known.user
    case Disconnect =>
      && (m.phase.Connected? || m.phase.AtLogin? || InSession(m.phase))
      && m.debt.HangingUp? && user == actor == m.known.user
    case MfaSuccess => m.phase.MustVerify? && m.debt.Success? && user == actor == m.known.user
    case MfaEnrolled =>
      (m.phase.MustEnroll? || Enrols(m)) && m.debt.Success? && user == actor == m.known.user
    case MfaFailed => (AtGate(m.phase) || Enrols(m)) && m.debt.Refusal? && user == actor == m.known.user
    case MfaCleared =>
      && m.phase.Passed? && m.place == Proved(Disable) && m.known.proven
      && m.debt == Change(MfaCleared) && user == actor == m.known.user
    case PasswordSelf =>
      && m.phase.Passed? && m.place == Proved(ChangePassword) && m.known.proven
      && m.debt == Change(PasswordSelf) && user == actor == m.known.user
    case AdminChange => m.phase.Passed? && m.place.InAdmin? && m.debt.Nothing? && m.known.admin && actor == m.known.user
  }

  predicate AllowsScreen(cfg: Config, m: Progress, screen: Screen) {
    match screen
    case LoginScreen => m.phase.AtLogin?
    case VerifyMfa => m.phase.MustVerify?
    case EnrollMfa => m.phase.MustEnroll? || (Enrols(m) && m.known.unlocked && m.known.proven)
    case News => m.phase.Passed? && m.place.NewsDone?
    case Menu => m.phase.Passed? && (m.place.AtMenu? || m.place.InAdmin?)
    case AdminScreen => m.phase.Passed? && (m.place.AdminDue? || m.place.InAdmin?) && m.known.admin && cfg.hasAdmin
    case Settings => m.phase.Passed? && m.place.SettingsOpen? && m.known.unlocked
    case PasswordForm => m.phase.Passed? && m.place.Doing? && m.known.unlocked
  }

  predicate AllowsCall(m: Progress, call: Call) {
    match call
    case Negotiating => m.phase.Connected? && m.debt.Nothing?
    case LoadingUser => (m.phase.Authenticated? || (m.phase.Passed? && m.place.SettingsDue?)) && m.debt.Nothing?
    case OpeningSecret => m.phase.MustVerify? && m.debt.Nothing?
    case GeneratingSecret =>
      (m.phase.MustEnroll? || (m.phase.Passed? && m.place in {Proved(Enroll), Proved(Reenroll)} && m.known.proven))
      && m.debt.Nothing?
    case Storing => (AtGate(m.phase) || Enrols(m)) && m.debt.Keep?
    case Changing => m.phase.Passed? && m.place == Proved(ChangePassword) && m.known.proven && m.debt.Nothing?
    case Clearing => m.phase.Passed? && m.place == Proved(Disable) && m.known.proven && m.debt.Nothing?
  }

  predicate Allows(cfg: Config, m: Progress, o: Obs) {
    match o
    case Audit(kind, user, actor, service) => AllowsAudit(m, kind, user, actor, service)
    case Shown(screen, r, out) =>
      && AllowsScreen(cfg, m, screen)
      && (if screen.News? then m.debt.Announcing? else m.debt.Nothing?)
      && (out.Picked? || out.AdminChosen? || out.SettingsChosen? ==> screen.Menu?)
      && (out.OptionChosen? ==> screen.Settings?)
      && (Serving(cfg) ==> if screen.LoginScreen? then m.known.armed == Some(r) else r == Regime(cfg.idle, Never))
    case Checked(name, _) =>
      (m.phase.AtLogin? || (m.phase.Passed? && m.place.Doing? && name == m.known.user)) && m.debt == Check(name)
    case CodeChecked(_) => (AtGate(m.phase) || Enrols(m)) && m.debt.Code?
    case Went(call) => AllowsCall(m, call) && !call.LoadingUser?
    case Trouble(call, _) => AllowsCall(m, call) && !call.Changing?
    case Declined => AllowsCall(m, Changing)
    case NewsRead(_) => m.phase.Passed? && m.place.Entering? && m.debt.Nothing?
    case UserRead(_, _) => m.phase.Passed? && m.place.SettingsDue? && m.debt.Nothing?
    case Bridged(service, r, _) =>
      && m.phase == BridgeOpening(service) && m.place.AtMenu? && m.debt.Nothing?
      && (Serving(cfg) ==> r == BridgeRegime(cfg))
    case Armed(at, r) =>
      && ((m.phase.Unborn? && m.debt.Nothing?) || ((AtGate(m.phase) || m.phase.LoggedOut?) && m.debt.Rearming?))
      && (Serving(cfg) ==> r == LoginRegime(cfg, at))
    case LoginEntry => (m.phase.Connected? || m.phase.Returning?) && m.debt.Nothing?
    case GateOff => m.phase.Authenticated? && m.debt.Nothing? && !cfg.mfa
    case GateRead(_, _, _) => m.phase.Authenticated? && m.debt.Nothing? && cfg.mfa
    case LockRead(_) => m.phase.Passed? && m.place.NewsDone? && m.debt.Nothing?
  }

  function NextPhase(m: Progress, o: Obs): Phase {
    match o
    case Audit(kind, _, _, service) =>
      (match kind
       case Connect => Connected
       case AuthOK => Authenticated
       case BridgeStart => BridgeOpening(service)
       case BridgeEnd => Passed
       case Logout => LoggedOut
       case Disconnect => Closed
       case MfaSuccess => Passed
       case MfaEnrolled => Passed
       case _ => m.phase)
    case Bridged(service, _, cause) => BridgeClosing(service, cause.ClientClosed?)
    case Armed(_, _) => if m.phase.Unborn? then Greeting else Returning
    case LoginEntry => AtLogin
    case GateOff => Passed
    case GateRead(secret, required, locked) =>
      if secret then MustVerify else if required && !locked then MustEnroll else Passed
    case _ => m.phase
  }

  function DebtAfterPrompt(m: Progress, screen: Screen, out: Outcome): Debt {
    match out
    case Failed => HangingUp
    case TimedOut => if screen.LoginScreen? then HangingUp else Leaving
    case Picked(service) => Starting(service)
    case Back =>
      if screen.LoginScreen? then HangingUp
      else if screen.Menu? then Leaving
      else if AtGate(m.phase) then Rearming else Nothing
    case Answered(name) =>
      if screen.LoginScreen? then Check(name)
      else if screen.PasswordForm? then Check(m.known.user)
      else if screen.VerifyMfa? || screen.EnrollMfa? then Code else Nothing
    case _ => Nothing
  }

  /** A failed call disconnects, but a timeout after the gate, or while storing a forced enrolment, only
      logs out. */
  function DebtAfterFailure(p: Phase, call: Call, timeout: bool): Debt {
    if timeout && (p.Passed? || (p.MustEnroll? && call.Storing?)) then Leaving else HangingUp
  }

  function NextDebt(m: Progress, o: Obs): Debt {
    match o
    case Audit(kind, _, _, _) =>
      if kind.Logout? then Rearming
      else if kind.BridgeEnd? && m.phase.BridgeClosing? && m.phase.gone then HangingUp
      else Nothing
    case Shown(screen, _, out) => DebtAfterPrompt(m, screen, out)
    case Checked(name, v) => if m.phase.AtLogin? || v.Invalid? then Verdict(name, v) else Nothing
    case CodeChecked(v) => if v.Accepted? then Keep else if v.Refused? then Refusal else Nothing
    case Went(call) =>
      (match call
       case Storing => Success
       case Changing => Change(PasswordSelf)
       case Clearing => Change(MfaCleared)
       case _ => Nothing)
    case Trouble(call, timeout) => DebtAfterFailure(m.phase, call, timeout)
    case NewsRead(present) => if present then Announcing else Nothing
    case _ => Nothing
  }

  function PlaceAfterPrompt(cfg: Config, m: Progress, screen: Screen, out: Outcome): Place {
    match screen
    case Menu =>
      if out.AdminChosen? && m.known.admin && cfg.hasAdmin then AdminDue
      else if out.SettingsChosen? && m.known.unlocked then SettingsDue
      else AtMenu
    case AdminScreen => InAdmin
    case Settings =>
      if out.OptionChosen? && 1 <= out.option <= |m.known.offered| then Doing(m.known.offered[out.option - 1])
      else if out.Back? then AtMenu
      else SettingsDue
    case PasswordForm => if out.Back? then SettingsDue else m.place
    case EnrollMfa => if out.Back? && m.phase.Passed? then SettingsDue else m.place
    case _ => m.place
  }

  function NextPlace(cfg: Config, m: Progress, o: Obs): Place {
    match o
    case Audit(kind, _, _, _) =>
      if kind.MfaSuccess? then Entering
      else if kind.MfaEnrolled? then (if m.phase.Passed? then SettingsDue else Entering)
      else if kind.PasswordSelf? || kind.MfaCleared? then SettingsDue
      else m.place
    case Shown(screen, _, out) => PlaceAfterPrompt(cfg, m, screen, out)
    case Checked(_, v) => if m.phase.Passed? && v.Valid? && m.place.Doing? then Proved(m.place.action) else m.place
    case Went(call) => if call.GeneratingSecret? && m.phase.Passed? then Enrolling else m.place
    case Declined => Doing(ChangePassword)
    case NewsRead(_) => NewsDone
    case UserRead(_, _) => SettingsOpen
    case GateOff => Entering
    case GateRead(_, _, _) => Entering
    case LockRead(_) => AtMenu
    case _ => m.place
  }

  function NextKnown(cfg: Config, m: Progress, n: nat, o: Obs): Known {
    var k := m.known;
    match o
    case Audit(kind, user, _, _) =>
      if kind.AuthOK? then
        k.(user := user, admin := m.debt.Verdict? && m.debt.verdict.Valid? && m.debt.verdict.admin,
           unlocked := false, proven := false, authAt := n)
      else if kind.MfaSuccess? || (kind.MfaEnrolled? && !m.phase.Passed?) then k.(passAt := n)
      else k
    case Shown(screen, _, _) =>
      if screen.LoginScreen? then k
      else if screen.EnrollMfa? then k.(armed := None)
      else k.(armed := None, proven := false)
    case Checked(_, v) => if m.phase.Passed? && v.Valid? then k.(proven := true, provenAt := n) else k
    case Bridged(_, _, _) => k.(armed := None)
    case Armed(_, r) => k.(armed := Some(r), armedAt := n)
    case LoginEntry => k.(user := "")
    case GateOff => k.(gateAt := n, passAt := n)
    case GateRead(_, _, _) => k.(gateAt := n, passAt := n)
    case NewsRead(_) => k.(newsAt := n)
    case LockRead(locked) => k.(unlocked := !locked, lockAt := n)
    case UserRead(enrolled, required) => k.(offered := Actions(cfg.mfa, enrolled, required))
    case _ => k
  }

  /** Progress after one more observation, the n-th. */
  function Advanced(cfg: Config, m: Progress, n: nat, o: Obs): Progress {
    Progress(NextPhase(m, o), NextDebt(m, o), NextPlace(cfg, m, o), NextKnown(cfg, m, n, o))
  }

  /** st[i] is the progress before observation i, and every observation is allowed where it stands. */
  predicate Acceptable(cfg: Config, trace: seq<Obs>, st: seq<Progress>) {
    && |st| == |trace| + 1
    && st[0] == START
    && forall i :: 0 <= i < |trace| ==> Linked(cfg, trace, st, i)
  }

  predicate Linked(cfg: Config, trace: seq<Obs>, st: seq<Progress>, i: nat)
    requires i < |trace| && |st| == |trace| + 1
  {
    Allows(cfg, st[i], trace[i]) && st[i + 1] == Advanced(cfg, st[i], i, trace[i])
  }

  /** A whole run: nothing is owed, and the connection is closed. */
  predicate Complete(cfg: Config, trace: seq<Obs>, st: seq<Progress>) {
    Acceptable(cfg, trace, st) && st[|trace|].phase.Closed?
  }

  lemma AcceptableSnoc(cfg: Config, trace: seq<Obs>, st: seq<Progress>, o: Obs)
    requires Acceptable(cfg, trace, st) && Allows(cfg, st[|trace|], o)
    ensures Acceptable(cfg, trace + [o], st + [Advanced(cfg, st[|trace|], |trace|, o)])
  {
    var t, u := trace + [o], st + [Advanced(cfg, st[|trace|], |trace|, o)];
    forall i | 0 <= i < |t| ensures Linked(cfg, t, u, i) {
      assert u[i] == st[i];
      if i < |trace| { assert Linked(cfg, trace, st, i) && t[i] == trace[i] && u[i + 1] == st[i + 1]; }
    }
  }

  // ---------------------------------------------------------------- the audit trail

  predicate IsAudit(o: Obs, kind: Kind) { o.Audit? && o.kind == kind }

  predicate Begun(p: Phase) { !p.Unborn? && !p.Greeting? }

  lemma StepBegins(cfg: Config, m: Progress, n: nat, o: Obs)
    requires Allows(cfg, m, o)
    ensures m.phase.Unborn? ==> o.Armed? && Advanced(cfg, m, n, o).phase.Greeting?
    ensures m.phase.Greeting? ==> IsAudit(o, Connect) && Begun(Advanced(cfg, m, n, o).phase)
    ensures Begun(m.phase) ==> Begun(Advanced(cfg, m, n, o).phase) && !IsAudit(o, Connect)
    ensures Advanced(cfg, m, n, o).phase.Closed? <==> IsAudit(o, Disconnect)
    ensures !m.phase.Closed?
  {
  }

  lemma {:induction false} Opening(cfg: Config, trace: seq<Obs>, st: seq<Progress>, i: nat)
    requires Acceptable(cfg, trace, st) && i <= |trace|
    ensures i == 0 ==> st[i].phase.Unborn?
    ensures i == 1 ==> st[i].phase.Greeting?
    ensures i >= 2 ==> Begun(st[i].phase)
  {
    if i > 0 {
      Opening(cfg, trace, st, i - 1);
      assert Linked(cfg, trace, st, i - 1);
      StepBegins(cfg, st[i - 1], i - 1, trace[i - 1]);
    }
  }

  /** One connect comes before every other audit event and one disconnect after them; the disconnect
      names as subject the principal it is attributed to. */
  lemma ConnectFirstDisconnectLast(cfg: Config, trace: seq<Obs>, st: seq<Progress>)
    requires Complete(cfg, trace, st)
    ensures |trace| >= 3 && !trace[0].Audit? && IsAudit(trace[1], Connect)
    ensures forall i :: 0 <= i < |trace| ==> (IsAudit(trace[i], Connect) <==> i == 1)
    ensures forall i :: 0 <= i < |trace| ==> (IsAudit(trace[i], Disconnect) <==> i == |trace| - 1)
    ensures IsAudit(trace[|trace| - 1], Disconnect) && trace[|trace| - 1].user == trace[|trace| - 1].actor
  {
    Opening(cfg, trace, st, |trace|);
    assert |trace| >= 2;
    forall i | 0 <= i < |trace|
      ensures (IsAudit(trace[i], Connect) <==> i == 1) && (IsAudit(trace[i], Disconnect) <==> i == |trace| - 1)
      ensures i == 0 ==> trace[i].Armed?
    {
      Opening(cfg, trace, st, i);
      assert Linked(cfg, trace, st, i);
      StepBegins(cfg, st[i], i, trace[i]);
      if i + 1 < |trace| {
        Opening(cfg, trace, st, i + 1);
        assert Linked(cfg, trace, st, i + 1);
        StepBegins(cfg, st[i + 1], i + 1, trace[i + 1]);
      }
    }
    assert Linked(cfg, trace, st, |trace| - 1);
    assert Allows(cfg, st[|trace| - 1], trace[|trace| - 1]);
  }

  /** What opening and closing a bridge require of the neighbouring observation. */
  lemma StepBridges(cfg: Config, m: Progress, n: nat, o: Obs)
    requires Allows(cfg, m, o)
    ensures Advanced(cfg, m, n, o).phase.BridgeOpening? <==> IsAudit(o, BridgeStart)
    ensures Advanced(cfg, m, n, o).debt.Starting? ==>
              o.Shown? && o.screen.Menu? && o.outcome == Picked(Advanced(cfg, m, n, o).debt.service)
    ensures Advanced(cfg, m, n, o).phase.BridgeClosing? ==> o.Bridged?
    ensures IsAudit(o, BridgeStart) || o.Bridged? || IsAudit(o, BridgeEnd) ==> BridgeStep(m, o, Advanced(cfg, m, n, o))
  {
    if IsAudit(o, BridgeStart) || o.Bridged? || IsAudit(o, BridgeEnd) { BridgeStepTaken(cfg, m, n, o); }
  }

  /** The three observations of a bridge, with the progress before and after. */
  predicate BridgeStep(m: Progress, o: Obs, q: Progress) {
    match o
    case Audit(kind, user, actor, service) =>
      if kind.BridgeStart? then
        && m.debt == Starting(service) && user == actor == m.known.user == q.known.user
        && q.phase == BridgeOpening(service)
      else
        && m.phase.BridgeClosing? && m.phase.service == service && user == actor == m.known.user
        && (m.phase.gone ==> q.debt.HangingUp?)
    case Bridged(service, _, cause) =>
      && m.phase == BridgeOpening(service) && q.known.user == m.known.user
      && q.phase == BridgeClosing(service, cause.ClientClosed?)
    case _ => false
  }

  lemma BridgeStepTaken(cfg: Config, m: Progress, n: nat, o: Obs)
    requires Allows(cfg, m, o) && (IsAudit(o, BridgeStart) || o.Bridged? || IsAudit(o, BridgeEnd))
    ensures BridgeStep(m, o, Advanced(cfg, m, n, o))
  {
  }

  lemma StepInBridge(cfg: Config, m: Progress, o: Obs)
    requires Allows(cfg, m, o)
    ensures m.phase.BridgeOpening? ==> o.Bridged?
    ensures m.phase.BridgeClosing? ==> IsAudit(o, BridgeEnd)
  {
  }

  /** Observations i-1 to i+2 are a menu choice of a service, its bridge_start, the bridge and its
      bridge_end, all for that service and one user. */
  predicate BridgeAt(trace: seq<Obs>, i: nat) {
    && 0 < i && i + 2 < |trace|
    && IsAudit(trace[i], BridgeStart) && trace[i + 1].Bridged? && IsAudit(trace[i + 2], BridgeEnd)
    && trace[i - 1].Shown? && trace[i - 1].screen.Menu? && trace[i - 1].outcome == Picked(trace[i].service)
    && trace[i].service == trace[i + 1].service == trace[i + 2].service
    && trace[i].user == trace[i].actor == trace[i + 2].user == trace[i + 2].actor
  }

  /** In a whole run every bridge_start, every bridge and every bridge_end is part of one such group; a
      client that closed during the bridge is disconnected next, and in any other case the menu follows. */
  lemma BridgeEventsPair(cfg: Config, trace: seq<Obs>, st: seq<Progress>, i: nat)
    requires Complete(cfg, trace, st) && i < |trace|
    ensures IsAudit(trace[i], BridgeStart) ==> BridgeAt(trace, i)
    ensures trace[i].Bridged? ==> i > 0 && BridgeAt(trace, i - 1)
    ensures IsAudit(trace[i], BridgeEnd) ==>
              && i > 1 && BridgeAt(trace, i - 2)
              && i + 1 < |trace|
              && if trace[i - 1].cause.ClientClosed? then IsAudit(trace[i + 1], Disconnect)
                 else IsScreen(trace[i + 1], Menu)
  {
    Neighbours(cfg, trace, st, i);
    if IsAudit(trace[i], BridgeStart) { BridgeFrom(cfg, trace, st, i); }
    if trace[i].Bridged? { BridgeFrom(cfg, trace, st, i - 1); }
    if IsAudit(trace[i], BridgeEnd) {
      Neighbours(cfg, trace, st, i - 1);
      BridgeFrom(cfg, trace, st, i - 2);
      AfterBridge(cfg, trace, st, i);
    }
  }

  /** The observation before i, as far as bridges go. */
  lemma Neighbours(cfg: Config, trace: seq<Obs>, st: seq<Progress>, i: nat)
    requires Acceptable(cfg, trace, st) && i < |trace|
    ensures trace[i].Bridged? ==> i > 0 && IsAudit(trace[i - 1], BridgeStart)
    ensures IsAudit(trace[i], BridgeEnd) ==> i > 0 && trace[i - 1].Bridged?
  {
    assert Linked(cfg, trace, st, i);
    StepBridges(cfg, st[i], i, trace[i]);
    if i > 0 {
      assert Linked(cfg, trace, st, i - 1);
      StepBridges(cfg, st[i - 1], i - 1, trace[i - 1]);
    }
  }

  lemma BridgeFrom(cfg: Config, trace: seq<Obs>, st: seq<Progress>, i: nat)
    requires Complete(cfg, trace, st) && i < |trace| && IsAudit(trace[i], BridgeStart)
    ensures BridgeAt(trace, i)
  {
    assert Linked(cfg, trace, st, i);
    StepBridges(cfg, st[i], i, trace[i]);
    assert Linked(cfg, trace, st, i - 1);
    StepBridges(cfg, st[i - 1], i - 1, trace[i - 1]);
    assert Linked(cfg, trace, st, i + 1);
    StepInBridge(cfg, st[i + 1], trace[i + 1]);
    StepBridges(cfg, st[i + 1], i + 1, trace[i + 1]);
    assert Linked(cfg, trace, st, i + 2);
    StepInBridge(cfg, st[i + 2], trace[i + 2]);
    StepBridges(cfg, st[i + 2], i + 2, trace[i + 2]);
  }

  /** A client that closed during a bridge is disconnected right after its bridge_end; otherwise the menu is
      shown again. */
  lemma AfterBridge(cfg: Config, trace: seq<Obs>, st: seq<Progress>, i: nat)
    requires Complete(cfg, trace, st) && 0 < i < |trace|
    requires IsAudit(trace[i], BridgeEnd) && trace[i - 1].Bridged?
    ensures i + 1 < |trace|
    ensures if trace[i - 1].cause.ClientClosed? then IsAudit(trace[i + 1], Disconnect)
            else IsScreen(trace[i + 1], Menu)
  {
    Placed(cfg, trace, st, i);
    assert Linked(cfg, trace, st, i - 1);
    StepBridges(cfg, st[i - 1], i - 1, trace[i - 1]);
    assert Linked(cfg, trace, st, i);
    StepBridges(cfg, st[i], i, trace[i]);
    StepBridgeEnds(cfg, st[i], i, trace[i]);
    assert Linked(cfg, trace, st, i + 1);
    StepPays(cfg, st[i + 1], trace[i + 1]);
    if !trace[i - 1].cause.ClientClosed? { StepPlaces(cfg, st[i + 1], trace[i + 1]); }
  }

  lemma StepBridgeEnds(cfg: Config, m: Progress, n: nat, o: Obs)
    requires Allows(cfg, m, o) && IsAudit(o, BridgeEnd)
    ensures var q := Advanced(cfg, m, n, o);
            q.phase.Passed? && q.place.AtMenu? && q.debt == (if m.phase.gone then HangingUp else Nothing)
  {
  }

  predicate PastLogin(p: Phase) { Begun(p) && !p.Connected? && !p.AtLogin? }

  lemma StepKeepsPrincipal(cfg: Config, m: Progress, n: nat, o: Obs)
    requires Allows(cfg, m, o)
    ensures PastLogin(m.phase) && o != LoginEntry ==>
              PastLogin(Advanced(cfg, m, n, o).phase) && Advanced(cfg, m, n, o).known.user == m.known.user
    ensures IsAudit(o, AuthOK) ==>
              PastLogin(Advanced(cfg, m, n, o).phase) && Advanced(cfg, m, n, o).known.user == o.user
    ensures o.Audit? && !o.kind.AuthOK? && PastLogin(m.phase) ==>
              o.actor == m.known.user && (!o.kind.AdminChange? ==> o.user == m.known.user)
    ensures IsAudit(o, AuthOK) ==> o.actor == o.user && m.phase.AtLogin?
  {
  }

  /** Every event from an auth_ok until the next return to the login screen is attributed to the user
      who logged in, and but for changes made on the admin screens is about that user. */
  lemma ActorIsPrincipal(cfg: Config, trace: seq<Obs>, st: seq<Progress>, i: nat, j: nat)
    requires Acceptable(cfg, trace, st) && i <= j < |trace| && IsAudit(trace[i], AuthOK) && trace[j].Audit?
    requires forall k :: i < k < j ==> trace[k] != LoginEntry
    ensures trace[j].actor == trace[i].user
    ensures trace[j].kind != AdminChange ==> trace[j].user == trace[i].user
  {
    assert Linked(cfg, trace, st, j);
    StepKeepsPrincipal(cfg, st[j], j, trace[j]);
    if i < j { PrincipalStays(cfg, trace, st, i, j); }
  }

  lemma {:induction false} PrincipalStays(cfg: Config, trace: seq<Obs>, st: seq<Progress>, i: nat, k: nat)
    requires Acceptable(cfg, trace, st) && i < k <= |trace| && IsAudit(trace[i], AuthOK)
    requires forall j :: i < j < k ==> trace[j] != LoginEntry
    ensures PastLogin(st[k].phase) && st[k].known.user == trace[i].user
    decreases k
  {
    assert Linked(cfg, trace, st, k - 1);
    StepKeepsPrincipal(cfg, st[k - 1], k - 1, trace[k - 1]);
    if k > i + 1 { PrincipalStays(cfg, trace, st, i, k - 1); }
  }

  predicate Over(p: Phase) { p.LoggedOut? || p.Returning? || p.AtLogin? || p.Closed? }

  lemma StepAfterLogout(cfg: Config, m: Progress, n: nat, o: Obs)
    requires Allows(cfg, m, o)
    ensures Over(m.phase) ==> !IsAudit(o, Logout)
    ensures Over(m.phase) && !IsAudit(o, AuthOK) ==> Over(Advanced(cfg, m, n, o).phase)
    ensures IsAudit(o, Logout) ==> Over(Advanced(cfg, m, n, o).phase)
  {
  }

  lemma {:induction false} LogoutEndsSession(cfg: Config, trace: seq<Obs>, st: seq<Progress>, i: nat, k: nat)
    requires Acceptable(cfg, trace, st) && i < k <= |trace| && IsAudit(trace[i], Logout)
    requires forall j :: i < j < k ==> !IsAudit(trace[j], AuthOK)
    ensures Over(st[k].phase)
    decreases k
  {
    assert Linked(cfg, trace, st, k - 1);
    StepAfterLogout(cfg, st[k - 1], k - 1, trace[k - 1]);
    if k > i + 1 { LogoutEndsSession(cfg, trace, st, i, k - 1); }
  }

  /** There is at most one logout per auth_ok. */
  lemma OneLogoutPerLogin(cfg: Config, trace: seq<Obs>, st: seq<Progress>, i: nat, j: nat)
    requires Acceptable(cfg, trace, st) && i < j < |trace|
    requires IsAudit(trace[i], Logout) && IsAudit(trace[j], Logout)
    ensures exists k :: i < k < j && IsAudit(trace[k], AuthOK)
  {
    if forall k :: i < k < j ==> !IsAudit(trace[k], AuthOK) {
      LogoutEndsSession(cfg, trace, st, i, j);
      assert Linked(cfg, trace, st, j);
      StepAfterLogout(cfg, st[j], j, trace[j]);
    }
  }

  // ---------------------------------------------------------------- verdicts and their events

  predicate IsLogin(o: Obs) { o.Shown? && o.screen.LoginScreen? }

  function EventOf(v: AuthVerdict): Kind {
    match v
    case Valid(_, _) => AuthOK
    case Invalid => AuthFail
    case Unavailable => AuthError
  }

  /** The name an event gives: the account's own once it is known, the one typed otherwise. */
  function NameFor(typed: string, v: AuthVerdict): string { if v.Valid? then v.user else typed }

  /** One observation's verdicts, and the debts that carry them to the next. */
  lemma StepVerdicts(cfg: Config, m: Progress, n: nat, o: Obs)
    requires Allows(cfg, m, o)
    ensures var q := Advanced(cfg, m, n, o);
            && (q.debt.Check? ==>
                  && o.Shown? && o.outcome.Answered? && (IsLogin(o) <==> q.phase.AtLogin?)
                  && q.debt.name == (if IsLogin(o) then o.outcome.name else m.known.user))
            && (IsLogin(o) ==> q.phase.AtLogin?)
            && (o.Checked? ==>
                  && m.debt == Check(o.name) && q.phase == m.phase
                  && (m.phase.AtLogin? || o.verdict.Invalid? ==> q.debt == Verdict(o.name, o.verdict)))
            && (q.debt.Verdict? ==>
                  o == Checked(q.debt.name, q.debt.verdict) && (q.phase.AtLogin? || q.debt.verdict.Invalid?))
  {
  }

  /** The same for codes. */
  lemma StepCodes(cfg: Config, m: Progress, n: nat, o: Obs)
    requires Allows(cfg, m, o)
    ensures var q := Advanced(cfg, m, n, o);
            && (q.debt.Code? ==> o.Shown? && o.screen in {VerifyMfa, EnrollMfa} && o.outcome.Answered?)
            && (o.CodeChecked? ==> m.debt.Code?)
            && (o == CodeChecked(Refused) <==> q.debt.Refusal?)
            && (q.debt.Keep? ==> o == CodeChecked(Accepted))
            && (o == Went(Storing) ==> m.debt.Keep?)
            && (q.debt.Success? ==> o == Went(Storing))
  {
  }

  /** What an event owed to a verdict says about the debt it pays, and the other way round. */
  lemma StepPays(cfg: Config, m: Progress, o: Obs)
    requires Allows(cfg, m, o)
    ensures m.debt.Verdict? && (m.phase.AtLogin? || m.debt.verdict.Invalid?) ==>
              IsAudit(o, EventOf(m.debt.verdict)) && o.user == NameFor(m.debt.name, m.debt.verdict)
    ensures IsAudit(o, AuthOK) ==>
              m.phase.AtLogin? && m.debt.Verdict? && m.debt.verdict.Valid? && m.debt.verdict.user == o.user
    ensures IsAudit(o, AuthFail) ==> m.debt == Verdict(o.user, Invalid)
    ensures IsAudit(o, AuthError) ==> m.debt == Verdict(o.user, Unavailable)
    ensures IsAudit(o, MfaFailed) <==> m.debt.Refusal?
    ensures IsAudit(o, MfaSuccess) || IsAudit(o, MfaEnrolled) ==> m.debt.Success?
    ensures m.debt.Leaving? ==> IsAudit(o, Logout)
    ensures m.debt.Rearming? ==> o.Armed?
    ensures m.debt.HangingUp? ==> IsAudit(o, Disconnect)
  {
  }

  /** Every event but the opening ones, and every step between events, has a predecessor; in a whole
      run whatever leaves a debt has a successor. */
  lemma Placed(cfg: Config, trace: seq<Obs>, st: seq<Progress>, i: nat)
    requires Complete(cfg, trace, st) && i < |trace|
    ensures !trace[i].Armed? && !IsAudit(trace[i], Connect) ==> i >= 2
    ensures !IsAudit(trace[i], Disconnect) ==> i + 1 < |trace|
    ensures i >= 2 ==> Begun(st[i].phase)
  {
    ConnectFirstDisconnectLast(cfg, trace, st);
    Opening(cfg, trace, st, i);
    Opening(cfg, trace, st, 0);
    assert Linked(cfg, trace, st, 0);
    StepBegins(cfg, st[0], 0, trace[0]);
  }

  /** Every login attempt is checked under the name typed, and its verdict is the very next event: auth_ok
      under the account's name, auth_fail or auth_error under the name typed. Every rejected password,
      at login or later, is audited at once; and no auth_ok, auth_fail or auth_error stands without the
      verdict it reports. */
  lemma VerdictsAreAudited(cfg: Config, trace: seq<Obs>, st: seq<Progress>, i: nat)
    requires Complete(cfg, trace, st) && i < |trace|
    ensures trace[i].Checked? ==>
              && i > 0 && trace[i - 1].Shown? && trace[i - 1].outcome.Answered?
              && (IsLogin(trace[i - 1]) ==> trace[i].name == trace[i - 1].outcome.name)
    ensures trace[i].Checked? && (IsLogin(trace[i - 1]) || trace[i].verdict.Invalid?) ==>
              && i + 1 < |trace| && IsAudit(trace[i + 1], EventOf(trace[i].verdict))
              && trace[i + 1].user == NameFor(trace[i].name, trace[i].verdict)
    ensures IsAudit(trace[i], AuthOK) ==>
              && i > 1 && trace[i - 1].Checked? && trace[i - 1].verdict.Valid?
              && trace[i - 1].verdict.user == trace[i].user && IsLogin(trace[i - 2])
    ensures IsAudit(trace[i], AuthFail) ==> i > 0 && trace[i - 1] == Checked(trace[i].user, Invalid)
    ensures IsAudit(trace[i], AuthError) ==> i > 0 && trace[i - 1] == Checked(trace[i].user, Unavailable)
  {
    Placed(cfg, trace, st, i);
    CheckDebts(cfg, trace, st, i);
    assert Linked(cfg, trace, st, i);
    StepVerdicts(cfg, st[i], i, trace[i]);
    if i > 0 { CheckDebts(cfg, trace, st, i - 1); }
    if trace[i].Checked? {
      Placed(cfg, trace, st, i + 1);
      assert Linked(cfg, trace, st, i + 1);
      StepPays(cfg, st[i + 1], trace[i + 1]);
    }
    if IsAudit(trace[i], AuthOK) || IsAudit(trace[i], AuthFail) || IsAudit(trace[i], AuthError) {
      StepPays(cfg, st[i], trace[i]);
    }
  }

  /** What the debts on the way to a verdict's event say of the observation before i. */
  lemma CheckDebts(cfg: Config, trace: seq<Obs>, st: seq<Progress>, i: nat)
    requires Acceptable(cfg, trace, st) && i <= |trace|
    ensures st[i].debt.Check? ==>
              && i > 0 && trace[i - 1].Shown? && trace[i - 1].outcome.Answered?
              && (IsLogin(trace[i - 1]) <==> st[i].phase.AtLogin?)
              && (IsLogin(trace[i - 1]) ==> st[i].debt.name == trace[i - 1].outcome.name)
    ensures st[i].debt.Verdict? ==>
              && i > 0 && trace[i - 1] == Checked(st[i].debt.name, st[i].debt.verdict)
              && st[i - 1].debt == Check(st[i].debt.name) && st[i - 1].phase == st[i].phase
  {
    if i > 0 {
      assert Linked(cfg, trace, st, i - 1);
      StepVerdicts(cfg, st[i - 1], i - 1, trace[i - 1]);
    }
  }

  /** The three observations before i: a code entered at an MFA prompt, accepted, and stored. */
  predicate CodeStored(trace: seq<Obs>, i: nat) {
    && 3 <= i <= |trace| && trace[i - 1] == Went(Storing) && trace[i - 2] == CodeChecked(Accepted)
    && trace[i - 3].Shown? && trace[i - 3].screen in {VerifyMfa, EnrollMfa} && trace[i - 3].outcome.Answered?
  }

  /** What the debts on the way to a success say of the observation before i. */
  lemma CodeDebts(cfg: Config, trace: seq<Obs>, st: seq<Progress>, i: nat)
    requires Acceptable(cfg, trace, st) && i <= |trace|
    ensures st[i].debt.Success? ==> i > 0 && trace[i - 1] == Went(Storing) && st[i - 1].debt.Keep?
    ensures st[i].debt.Keep? ==> i > 0 && trace[i - 1] == CodeChecked(Accepted) && st[i - 1].debt.Code?
    ensures st[i].debt.Code? ==>
              && i > 0 && trace[i - 1].Shown? && trace[i - 1].outcome.Answered?
              && trace[i - 1].screen in {VerifyMfa, EnrollMfa}
  {
    if i > 0 {
      assert Linked(cfg, trace, st, i - 1);
      StepCodes(cfg, st[i - 1], i - 1, trace[i - 1]);
    }
  }

  /** mfa_success and mfa_enrolled stand only after a code was entered, accepted and stored. */
  lemma SuccessNeedsStoredCode(cfg: Config, trace: seq<Obs>, st: seq<Progress>, i: nat)
    requires Acceptable(cfg, trace, st) && i < |trace|
    requires IsAudit(trace[i], MfaSuccess) || IsAudit(trace[i], MfaEnrolled)
    ensures CodeStored(trace, i)
  {
    assert Linked(cfg, trace, st, i) && st[i].debt.Success?;
    CodeDebts(cfg, trace, st, i);
    CodeDebts(cfg, trace, st, i - 1);
    CodeDebts(cfg, trace, st, i - 2);
  }

  /** mfa_failed stands exactly after a refused code. */
  lemma RefusedCodesAreAudited(cfg: Config, trace: seq<Obs>, st: seq<Progress>, i: nat)
    requires Complete(cfg, trace, st) && i < |trace|
    ensures trace[i] == CodeChecked(Refused) ==> i + 1 < |trace| && IsAudit(trace[i + 1], MfaFailed)
    ensures IsAudit(trace[i], MfaFailed) ==> i > 0 && trace[i - 1] == CodeChecked(Refused)
  {
    Placed(cfg, trace, st, i);
    assert Linked(cfg, trace, st, i);
    StepPays(cfg, st[i], trace[i]);
    if i > 0 {
      assert Linked(cfg, trace, st, i - 1);
      StepCodes(cfg, st[i - 1], i - 1, trace[i - 1]);
    }
    if trace[i] == CodeChecked(Refused) {
      StepCodes(cfg, st[i], i, trace[i]);
      assert Linked(cfg, trace, st, i + 1);
      StepPays(cfg, st[i + 1], trace[i + 1]);
    }
  }

  /** A prompt that fails ends the connection at once. One that times out after login is audited as a
      logout, the pre-auth regime is installed again and the login screen follows; PF3 at the menu
      does the same; PF3 at the gate's verification or enrolment prompt does it without a logout
      event. */
  lemma EndingsAreHandled(cfg: Config, trace: seq<Obs>, st: seq<Progress>, i: nat)
    requires Complete(cfg, trace, st) && i < |trace| && trace[i].Shown?
    ensures trace[i].outcome.Failed? || (IsLogin(trace[i]) && !trace[i].outcome.Answered?) ==>
              i + 1 < |trace| && IsAudit(trace[i + 1], Disconnect)
    ensures !IsLogin(trace[i]) && (trace[i].outcome.TimedOut? || (trace[i].screen.Menu? && trace[i].outcome.Back?)) ==>
              i + 3 < |trace| && IsAudit(trace[i + 1], Logout) && trace[i + 2].Armed? && trace[i + 3] == LoginEntry
    ensures CancelledMfa(trace[i]) && (trace[i].screen.VerifyMfa? || AtGate(st[i].phase)) ==>
              i + 2 < |trace| && trace[i + 1].Armed? && trace[i + 2] == LoginEntry
  {
    Placed(cfg, trace, st, i);
    assert Linked(cfg, trace, st, i);
    StepEnds(cfg, st[i], i, trace[i]);
    Placed(cfg, trace, st, i + 1);
    assert Linked(cfg, trace, st, i + 1);
    StepPays(cfg, st[i + 1], trace[i + 1]);
    if st[i + 1].debt.Leaving? || st[i + 1].debt.Rearming? {
      StepReturns(cfg, st[i + 1], i + 1, trace[i + 1]);
      Placed(cfg, trace, st, i + 2);
      assert Linked(cfg, trace, st, i + 2);
      StepPays(cfg, st[i + 2], trace[i + 2]);
      StepReturns(cfg, st[i + 2], i + 2, trace[i + 2]);
      if st[i + 1].debt.Leaving? {
        Placed(cfg, trace, st, i + 3);
        assert Linked(cfg, trace, st, i + 3);
        StepReturns(cfg, st[i + 3], i + 3, trace[i + 3]);
      }
    }
  }

  lemma StepEnds(cfg: Config, m: Progress, n: nat, o: Obs)
    requires Allows(cfg, m, o) && o.Shown?
    ensures var q := Advanced(cfg, m, n, o);
            && q.phase == m.phase
            && (o.outcome.Failed? || (IsLogin(o) && !o.outcome.Answered?) ==> q.debt.HangingUp?)
            && (!IsLogin(o) && (o.outcome.TimedOut? || (o.screen.Menu? && o.outcome.Back?)) ==> q.debt.Leaving?)
            && (CancelledMfa(o) && (o.screen.VerifyMfa? || AtGate(m.phase)) ==> q.debt.Rearming?)
  {
  }

  lemma StepReturns(cfg: Config, m: Progress, n: nat, o: Obs)
    requires Allows(cfg, m, o)
    ensures IsAudit(o, Logout) ==> Advanced(cfg, m, n, o).debt.Rearming? && Advanced(cfg, m, n, o).phase.LoggedOut?
    ensures o.Armed? && !m.phase.Unborn? ==>
              Advanced(cfg, m, n, o).debt.Nothing? && Advanced(cfg, m, n, o).phase.Returning?
    ensures m.phase.Returning? && m.debt.Nothing? ==> o == LoginEntry
  {
  }

  // ---------------------------------------------------------------- returns to the login screen

  /** PF3 at an MFA prompt. */
  predicate CancelledMfa(o: Obs) { o.Shown? && o.screen in {VerifyMfa, EnrollMfa} && o.outcome.Back? }

  lemma StepBack(cfg: Config, m: Progress, n: nat, o: Obs)
    requires Allows(cfg, m, o)
    ensures o == LoginEntry ==> m.phase.Connected? || (m.phase.Returning? && m.debt.Nothing?)
    ensures Advanced(cfg, m, n, o).phase.Returning? ==> o.Armed? && !m.phase.Unborn? && m.debt.Rearming?
    ensures Advanced(cfg, m, n, o).debt.Rearming? ==>
              if IsAudit(o, Logout) then Advanced(cfg, m, n, o).phase.LoggedOut?
              else CancelledMfa(o) && AtGate(m.phase) && Advanced(cfg, m, n, o).phase == m.phase
    ensures IsAudit(o, AuthOK) ==> m.phase.AtLogin?
  {
  }

  /** The two observations before a return to the login screen: the pre-auth regime is installed, and
      before that comes a logout, or PF3 at an MFA prompt of the gate. */
  lemma BeforeReturn(cfg: Config, trace: seq<Obs>, st: seq<Progress>, l: nat)
    requires Acceptable(cfg, trace, st) && l < |trace| && trace[l] == LoginEntry && !st[l].phase.Connected?
    ensures l >= 2 && trace[l - 1].Armed?
    ensures IsAudit(trace[l - 2], Logout) || (CancelledMfa(trace[l - 2]) && AtGate(st[l - 2].phase))
  {
    Opening(cfg, trace, st, 0);
    Opening(cfg, trace, st, 1);
    assert Linked(cfg, trace, st, l);
    StepBack(cfg, st[l], l, trace[l]);
    assert Linked(cfg, trace, st, l - 1);
    StepBack(cfg, st[l - 1], l - 1, trace[l - 1]);
    assert Linked(cfg, trace, st, l - 2);
    StepBack(cfg, st[l - 2], l - 2, trace[l - 2]);
  }

  /** trace[l] is the first return to the login screen after the auth_ok at a. */
  predicate FirstReturn(trace: seq<Obs>, a: nat, l: nat) {
    && a < l < |trace| && IsAudit(trace[a], AuthOK) && trace[l] == LoginEntry
    && forall k :: a < k < l ==> trace[k] != LoginEntry
  }

  predicate LoggedOutBetween(trace: seq<Obs>, a: nat, l: nat)
    requires l <= |trace|
  {
    exists k :: a < k < l && IsAudit(trace[k], Logout)
  }

  /** A login is ended by exactly one logout event, the last but one thing before the login screen
      returns, unless the user pressed PF3 at an MFA prompt: then, and only then, there is none. */
  lemma ReturnsAreAudited(cfg: Config, trace: seq<Obs>, st: seq<Progress>, a: nat, l: nat)
    requires Acceptable(cfg, trace, st) && FirstReturn(trace, a, l)
    ensures l >= a + 3 && trace[l - 1].Armed?
    ensures LoggedOutBetween(trace, a, l) <==> !CancelledMfa(trace[l - 2])
    ensures LoggedOutBetween(trace, a, l) ==> IsAudit(trace[l - 2], Logout)
  {
    PrincipalStays(cfg, trace, st, a, l);
    BeforeReturn(cfg, trace, st, l);
    assert l - 2 > a;
    if CancelledMfa(trace[l - 2]) {
      forall k: nat | a < k < l ensures !IsAudit(trace[k], Logout) {
        if k < l - 2 {
          NoReauth(cfg, trace, st, a, l);
          if IsAudit(trace[k], Logout) { LogoutEndsSession(cfg, trace, st, k, l - 2); }
        }
      }
    }
  }

  lemma NoReauth(cfg: Config, trace: seq<Obs>, st: seq<Progress>, a: nat, l: nat)
    requires Acceptable(cfg, trace, st) && FirstReturn(trace, a, l)
    ensures forall k :: a < k < l ==> !IsAudit(trace[k], AuthOK)
  {
    forall k: nat | a < k < l ensures !IsAudit(trace[k], AuthOK) {
      PrincipalStays(cfg, trace, st, a, k);
      assert Linked(cfg, trace, st, k);
      StepBack(cfg, st[k], k, trace[k]);
    }
  }

  /** Plays one more observation. */
  lemma More(cfg: Config, trace: seq<Obs>, st: seq<Progress>, o: Obs) returns (t: seq<Obs>, u: seq<Progress>)
    requires Acceptable(cfg, trace, st) && Allows(cfg, st[|trace|], o)
    ensures Acceptable(cfg, t, u) && t == trace + [o] && u[|t|] == Advanced(cfg, st[|trace|], |trace|, o)
  {
    AcceptableSnoc(cfg, trace, st, o);
    t, u := trace + [o], st + [Advanced(cfg, st[|trace|], |trace|, o)];
  }

  /** Up to an answered login prompt, on a serving gateway. */
  lemma ToPassword(cfg: Config) returns (t: seq<Obs>, u: seq<Progress>)
    requires Serving(cfg)
    ensures Acceptable(cfg, t, u) && |t| == 5 && t[3] == LoginEntry
    ensures u[5].phase.AtLogin? && u[5].debt == Check("ann") && u[5].known.user == ""
  {
    var r := LoginRegime(cfg, 0);
    t, u := [], [START];
    t, u := More(cfg, t, u, Armed(0, r));
    t, u := More(cfg, t, u, Audit(Connect, "", "", ""));
    t, u := More(cfg, t, u, Went(Negotiating));
    t, u := More(cfg, t, u, LoginEntry);
    t, u := More(cfg, t, u, Shown(LoginScreen, r, Answered("ann")));
  }

  /** Login as an unenrolled account that must enrol: the trace up to the enrolment prompt. */
  lemma ToEnrolment(cfg: Config) returns (t: seq<Obs>, u: seq<Progress>)
    requires Serving(cfg) && cfg.mfa
    ensures Acceptable(cfg, t, u) && |t| == 9 && IsAudit(t[6], AuthOK)
    ensures forall k :: 6 < k < 9 ==> t[k] != LoginEntry
    ensures u[9].phase.MustEnroll? && u[9].debt.Nothing? && u[9].known.user == "ANN"
  {
    t, u := ToPassword(cfg);
    t, u := More(cfg, t, u, Checked("ann", Valid("ANN", false)));
    t, u := More(cfg, t, u, Audit(AuthOK, "ANN", "ANN", ""));
    t, u := More(cfg, t, u, GateRead(false, true, false));
    t, u := More(cfg, t, u, Went(GeneratingSecret));
  }

  /** PF3 at the enrolment prompt, and back at the login screen. */
  lemma ToCancellation(cfg: Config) returns (t: seq<Obs>, u: seq<Progress>)
    requires Serving(cfg) && cfg.mfa
    ensures Acceptable(cfg, t, u) && |t| == 12 && FirstReturn(t, 6, 11) && CancelledMfa(t[9])
    ensures u[12].phase.AtLogin? && u[12].debt.Nothing? && u[12].known.user == ""
    ensures u[12].known.armed == Some(LoginRegime(cfg, 1))
  {
    t, u := ToEnrolment(cfg);
    t, u := More(cfg, t, u, Shown(EnrollMfa, Regime(cfg.idle, Never), Back));
    t, u := More(cfg, t, u, Armed(1, LoginRegime(cfg, 1)));
    t, u := More(cfg, t, u, LoginEntry);
  }

  /** On every serving gateway with MFA a login can end without a logout event: PF3 at the forced
      enrolment prompt, then PF3 at the login screen. */
  lemma CancelledEnrolmentIsNotAudited(cfg: Config)
    requires Serving(cfg) && cfg.mfa
    ensures exists trace, st, l: nat ::
              Complete(cfg, trace, st) && FirstReturn(trace, 6, l) && !LoggedOutBetween(trace, 6, l)
  {
    var t, u := ToCancellation(cfg);
    ReturnsAreAudited(cfg, t, u, 6, 11);
    var v, w := More(cfg, t, u, Shown(LoginScreen, LoginRegime(cfg, 1), Back));
    v, w := More(cfg, v, w, Audit(Disconnect, "", "", ""));
    assert forall k :: 0 <= k < 12 ==> v[k] == t[k];
    assert Complete(cfg, v, w) && FirstReturn(v, 6, 11) && !LoggedOutBetween(v, 6, 11);
  }

  // ---------------------------------------------------------------- why a run ends

  /** What leaves nothing but the disconnect: a call that failed, a prompt that failed, a login prompt
      that was left or timed out, or a bridge during which the client closed. */
  predicate Fatal(trace: seq<Obs>, i: nat)
    requires i < |trace|
  {
    match trace[i]
    case Trouble(_, _) => true
    case Shown(screen, _, out) => out.Failed? || (screen.LoginScreen? && !out.Answered?)
    case Audit(kind, _, _, _) =>
      kind.BridgeEnd? && i > 0 && trace[i - 1].Bridged? && trace[i - 1].cause.ClientClosed?
    case _ => false
  }

  lemma StepFatal(cfg: Config, m: Progress, n: nat, o: Obs)
    requires Allows(cfg, m, o)
    ensures IsAudit(o, Disconnect) ==> m.debt.HangingUp?
    ensures Advanced(cfg, m, n, o).debt.HangingUp? ==>
              || o.Trouble?
              || (o.Shown? && (o.outcome.Failed? || (o.screen.LoginScreen? && !o.outcome.Answered?)))
              || (IsAudit(o, BridgeEnd) && m.phase.BridgeClosing? && m.phase.gone)
    ensures Advanced(cfg, m, n, o).phase.BridgeClosing? ==>
              o.Bridged? && Advanced(cfg, m, n, o).phase.gone == o.cause.ClientClosed?
  {
  }

  /** A whole run ends for a cause: the observation before the disconnect is fatal. */
  lemma EndHasCause(cfg: Config, trace: seq<Obs>, st: seq<Progress>)
    requires Complete(cfg, trace, st)
    ensures |trace| >= 3 && Fatal(trace, |trace| - 2)
  {
    ConnectFirstDisconnectLast(cfg, trace, st);
    var n := |trace|;
    assert Linked(cfg, trace, st, n - 1);
    StepFatal(cfg, st[n - 1], n - 1, trace[n - 1]);
    assert Linked(cfg, trace, st, n - 2);
    StepFatal(cfg, st[n - 2], n - 2, trace[n - 2]);
    assert Linked(cfg, trace, st, n - 3);
    StepFatal(cfg, st[n - 3], n - 3, trace[n - 3]);
  }

  // ---------------------------------------------------------------- regimes

  predicate PostAuthUse(o: Obs) { o.Bridged? || (o.Shown? && !o.screen.LoginScreen?) }

  lemma StepArms(cfg: Config, m: Progress, n: nat, o: Obs)
    requires Allows(cfg, m, o)
    ensures o.Armed? ==>
              var k := Advanced(cfg, m, n, o).known; k.armed == Some(o.regime) && k.armedAt == n
    ensures PostAuthUse(o) ==> Advanced(cfg, m, n, o).known.armed.None?
    ensures !o.Armed? && !PostAuthUse(o) ==>
              var k := Advanced(cfg, m, n, o).known; k.armed == m.known.armed && k.armedAt == m.known.armedAt
  {
  }

  lemma {:induction false} ArmingIsRemembered(cfg: Config, trace: seq<Obs>, st: seq<Progress>, i: nat)
    requires Acceptable(cfg, trace, st) && i <= |trace|
    ensures st[i].known.armed.Some? ==>
              var j := st[i].known.armedAt;
              && j < i && trace[j].Armed? && trace[j].regime == st[i].known.armed.value
              && forall k :: j < k < i ==> !PostAuthUse(trace[k])
  {
    if i > 0 {
      ArmingIsRemembered(cfg, trace, st, i - 1);
      assert Linked(cfg, trace, st, i - 1);
      StepArms(cfg, st[i - 1], i - 1, trace[i - 1]);
    }
  }

  /** The pre-auth regime installed at position j still covers position i: nothing used the session in
      between. */
  predicate FreshlyArmed(cfg: Config, trace: seq<Obs>, j: nat, i: nat) {
    && j < i < |trace| && trace[j].Armed? && trace[i].Shown?
    && trace[i].regime == trace[j].regime == LoginRegime(cfg, trace[j].at)
    && forall k :: j < k < i ==> !PostAuthUse(trace[k])
  }

  /** With serving limits, every login prompt runs under the window and the ceiling installed afresh on
      that return to the login screen (a trusted client: under neither); every later prompt runs
      under the plain idle window; a bridge runs under it too, or under none when exempt. */
  lemma PromptsRunUnderTheirRegime(cfg: Config, trace: seq<Obs>, st: seq<Progress>, i: nat)
    requires Serving(cfg) && Acceptable(cfg, trace, st) && i < |trace|
    ensures IsLogin(trace[i]) ==> exists j: nat :: FreshlyArmed(cfg, trace, j, i)
    ensures trace[i].Shown? && !IsLogin(trace[i]) ==> trace[i].regime == Regime(cfg.idle, Never)
    ensures trace[i].Bridged? ==> trace[i].regime == BridgeRegime(cfg)
  {
    assert Linked(cfg, trace, st, i);
    assert Allows(cfg, st[i], trace[i]);
    if IsLogin(trace[i]) {
      ArmingIsRemembered(cfg, trace, st, i);
      var j := st[i].known.armedAt;
      assert Linked(cfg, trace, st, j);
      assert Allows(cfg, st[j], trace[j]);
      assert FreshlyArmed(cfg, trace, j, i);
    }
  }

  /** Whatever the client does at a login prompt, and however slowly, no read or write there arms a
      deadline past the ceiling counted from that return to the login screen. */
  lemma LoginPromptsEndByCeiling(cfg: Config, trace: seq<Obs>, st: seq<Progress>, i: nat, conn: State, times: seq<int>)
    requires Serving(cfg) && !cfg.trusted && Acceptable(cfg, trace, st) && i < |trace| && IsLogin(trace[i])
    requires !conn.manual && Regime(conn.idle, conn.hard) == trace[i].regime
    ensures exists j: nat ::
              && FreshlyArmed(cfg, trace, j, i)
              && var c := ArmedAt(conn, times);
                 && c.hard == At(trace[j].at + cfg.preAuthMax)
                 && (times != [] ==>
                       c.readBy == c.writeBy && c.readBy.At? && c.readBy.t <= trace[j].at + cfg.preAuthMax)
  {
    PromptsRunUnderTheirRegime(cfg, trace, st, i);
    var j: nat :| FreshlyArmed(cfg, trace, j, i);
    CeilingHolds(conn, cfg.preAuthIdle, cfg.preAuthMax, trace[j].at, times);
    assert PreAuth(conn, cfg.preAuthIdle, cfg.preAuthMax, trace[j].at) == conn;
  }

  /** The deadlines a prompt sets: exactly the idle window past the last read or write; at a login prompt the
      pre-auth window, and no later than the ceiling counted from the return to that screen; none at a
      trusted client's login prompt. */
  lemma PromptsArmExactly(cfg: Config, trace: seq<Obs>, st: seq<Progress>, i: nat, conn: State, times: seq<int>)
    requires cfg.wrapped && cfg.preAuthIdle > 0 && cfg.preAuthMax > 0 && cfg.idle > 0
    requires Acceptable(cfg, trace, st) && i < |trace| && trace[i].Shown?
    requires !conn.manual && Regime(conn.idle, conn.hard) == trace[i].regime && times != []
    ensures var c, last := ArmedAt(conn, times), times[|times| - 1];
            && c.readBy == c.writeBy
            && (!IsLogin(trace[i]) ==> c.readBy == At(last + cfg.idle))
            && (IsLogin(trace[i]) && cfg.trusted ==> c.readBy == Never)
            && (IsLogin(trace[i]) && !cfg.trusted ==>
                  exists j: nat ::
                    && FreshlyArmed(cfg, trace, j, i)
                    && c.readBy == At(if last + cfg.preAuthIdle <= trace[j].at + cfg.preAuthMax
                                      then last + cfg.preAuthIdle else trace[j].at + cfg.preAuthMax))
  {
    PromptsRunUnderTheirRegime(cfg, trace, st, i);
    if IsLogin(trace[i]) && !cfg.trusted {
      var j: nat :| FreshlyArmed(cfg, trace, j, i);
      assert PreAuth(conn, cfg.preAuthIdle, cfg.preAuthMax, trace[j].at) == conn;
      PreAuthArmsExactly(conn, cfg.preAuthIdle, cfg.preAuthMax, trace[j].at, times);
    } else {
      assert Window(conn, conn.idle) == conn;
      WindowArmsExactly(conn, conn.idle, times);
    }
  }

  /** A bridge sets them to exactly the idle window past the last use of the client connection, and sets
      none when bridges are exempt from it. */
  lemma BridgesArmExactly(cfg: Config, trace: seq<Obs>, st: seq<Progress>, i: nat, conn: State, times: seq<int>)
    requires cfg.wrapped && cfg.preAuthIdle > 0 && cfg.preAuthMax > 0 && cfg.idle > 0
    requires Acceptable(cfg, trace, st) && i < |trace| && trace[i].Bridged?
    requires !conn.manual && Regime(conn.idle, conn.hard) == trace[i].regime && times != []
    ensures trace[i].regime == Regime(if cfg.bridgeIdleExempt then 0 else cfg.idle, Never)
    ensures var c := ArmedAt(conn, times);
            && c.readBy == (if cfg.bridgeIdleExempt then Never else At(times[|times| - 1] + cfg.idle))
            && c.writeBy == c.readBy
  {
    PromptsRunUnderTheirRegime(cfg, trace, st, i);
    assert Window(conn, conn.idle) == conn;
    WindowArmsExactly(conn, conn.idle, times);
  }

  /** So in every interleaving of a bridge's two relays, until one of them ends by itself, a read or write on
      the client is cut off exactly when the connection has gone unused in both directions for the
      configured idle time, and never when bridges are exempt. */
  lemma BridgeIsCutByIdlingAlone(cfg: Config, trace: seq<Obs>, st: seq<Progress>, i: nat, conn: State,
                                 acts: seq<BridgeRace.Action>, who: BridgeRace.Who, now: int)
    requires cfg.wrapped && cfg.preAuthIdle > 0 && cfg.preAuthMax > 0 && cfg.idle > 0
    requires Acceptable(cfg, trace, st) && i < |trace| && trace[i].Bridged?
    requires !conn.manual && Regime(conn.idle, conn.hard) == trace[i].regime
    requires BridgeRace.Legal(BridgeRace.Start(conn), acts)
    requires var w := BridgeRace.Exec(BridgeRace.Start(conn), acts);
             w.stage.AwaitFirst? && BridgeRace.Enabled(w, BridgeRace.Enter(who, now))
    ensures BridgeRace.DoomedByIdling(BridgeRace.Exec(BridgeRace.Start(conn), acts), who, now,
                                      if cfg.bridgeIdleExempt then 0 else cfg.idle, BridgeRace.ClientArms(conn, acts))
  {
    PromptsRunUnderTheirRegime(cfg, trace, st, i);
    assert Window(conn, conn.idle) == conn;
    BridgeRace.IdleLimitIsExact(conn, conn.idle, acts, who, now);
  }

  // ---------------------------------------------------------------- gates

  /** auth_ok at a, and no login screen since then before i. */
  predicate SameLogin(trace: seq<Obs>, a: nat, i: nat) {
    a < i <= |trace| && IsAudit(trace[a], AuthOK) && forall k :: a < k < i ==> trace[k] != LoginEntry
  }

  /** The MFA step of the login at a was settled at v: off, nothing to do, a stored secret verified,
      or enrolment completed. */
  predicate GateSettled(cfg: Config, trace: seq<Obs>, a: nat, g: nat, v: nat) {
    && a < g <= v < |trace|
    && if !cfg.mfa then trace[g] == GateOff
       else trace[g].GateRead? &&
            if trace[g].secret then g < v && IsAudit(trace[v], MfaSuccess)
            else if trace[g].required && !trace[g].locked then g < v && IsAudit(trace[v], MfaEnrolled)
            else true
  }

  predicate LoggedPhase(p: Phase) { InSession(p) || p.BridgeOpening? || p.BridgeClosing? }

  predicate PassedPhase(p: Phase) { p.Passed? || p.BridgeOpening? || p.BridgeClosing? }

  predicate AccountedAdmin(trace: seq<Obs>, a: nat) {
    0 < a <= |trace| && trace[a - 1].Checked? && trace[a - 1].verdict.Valid? && trace[a - 1].verdict.admin
  }

  /** What the recorded positions mean, before observation i. */
  predicate GateFacts(cfg: Config, trace: seq<Obs>, m: Progress, i: nat)
    requires i <= |trace|
  {
    && (LoggedPhase(m.phase) ==> SameLogin(trace, m.known.authAt, i))
    && (PassedPhase(m.phase) ==>
          m.known.passAt < i && GateSettled(cfg, trace, m.known.authAt, m.known.gateAt, m.known.passAt))
    && (m.phase.MustVerify? ==> m.known.authAt < m.known.gateAt < i && cfg.mfa && trace[m.known.gateAt].GateRead?
                                && trace[m.known.gateAt].secret)
    && (m.phase.MustEnroll? ==> m.known.authAt < m.known.gateAt < i && cfg.mfa && trace[m.known.gateAt].GateRead?
                                && !trace[m.known.gateAt].secret && trace[m.known.gateAt].required
                                && !trace[m.known.gateAt].locked)
    && (LoggedPhase(m.phase) && m.known.unlocked ==>
          m.known.authAt < m.known.lockAt < i && trace[m.known.lockAt] == LockRead(false))
  }

  /** How one step moves between the phases of a login. */
  lemma StepGates(cfg: Config, m: Progress, n: nat, o: Obs)
    requires Allows(cfg, m, o)
    ensures var q := Advanced(cfg, m, n, o);
            && (LoggedPhase(q.phase) ==>
                  if IsAudit(o, AuthOK) then q.known.authAt == n && q.phase.Authenticated? && !q.known.unlocked
                  else LoggedPhase(m.phase) && q.known.authAt == m.known.authAt && o != LoginEntry)
            && (PassedPhase(q.phase) ==>
                  || (PassedPhase(m.phase) && q.known.gateAt == m.known.gateAt && q.known.passAt == m.known.passAt)
                  || (q.known.gateAt == q.known.passAt == n
                      && if cfg.mfa then o.GateRead? && !o.secret && !(o.required && !o.locked) else o.GateOff?)
                  || (q.known.gateAt == m.known.gateAt && q.known.passAt == n
                      && if m.phase.MustVerify? then IsAudit(o, MfaSuccess)
                         else m.phase.MustEnroll? && IsAudit(o, MfaEnrolled)))
            && (q.phase.MustVerify? ==>
                  || (m.phase.MustVerify? && q.known.gateAt == m.known.gateAt)
                  || (q.known.gateAt == n && cfg.mfa && o.GateRead? && o.secret))
            && (q.phase.MustEnroll? ==>
                  || (m.phase.MustEnroll? && q.known.gateAt == m.known.gateAt)
                  || (q.known.gateAt == n && cfg.mfa && o.GateRead? && !o.secret && o.required && !o.locked))
            && (q.known.unlocked ==>
                  || (q.known.lockAt == n && o == LockRead(false))
                  || (m.known.unlocked && q.known.lockAt == m.known.lockAt))
  {
  }

  lemma {:induction false} GateFactsHold(cfg: Config, trace: seq<Obs>, st: seq<Progress>, i: nat)
    requires Acceptable(cfg, trace, st) && i <= |trace|
    ensures GateFacts(cfg, trace, st[i], i)
  {
    if i > 0 {
      GateFactsHold(cfg, trace, st, i - 1);
      assert Linked(cfg, trace, st, i - 1);
      GateFactsStep(cfg, trace, st[i - 1], st[i], i - 1);
    }
  }

  lemma GateFactsStep(cfg: Config, trace: seq<Obs>, m: Progress, q: Progress, n: nat)
    requires n < |trace| && Allows(cfg, m, trace[n]) && q == Advanced(cfg, m, n, trace[n])
    requires GateFacts(cfg, trace, m, n)
    ensures GateFacts(cfg, trace, q, n + 1)
  {
    StepGates(cfg, m, n, trace[n]);
  }

  predicate PastGate(o: Obs) {
    o.Bridged? || (o.Shown? && o.screen in {News, Menu, AdminScreen, Settings, PasswordForm})
  }

  /** The menu, the news, the admin and settings screens and every bridge come only after an auth_ok
      and a settled MFA step of the same login; where that step was a verification or an enrolment, a
      code was entered, accepted and stored for it. */
  lemma MenuNeedsSettledGate(cfg: Config, trace: seq<Obs>, st: seq<Progress>, i: nat)
    requires Complete(cfg, trace, st) && i < |trace| && PastGate(trace[i])
    ensures exists a: nat, g: nat, v: nat ::
              && v < i && SameLogin(trace, a, i) && GateSettled(cfg, trace, a, g, v)
              && (IsAudit(trace[v], MfaSuccess) || IsAudit(trace[v], MfaEnrolled) ==> CodeStored(trace, v))
  {
    GateFactsHold(cfg, trace, st, i);
    assert Linked(cfg, trace, st, i);
    assert Allows(cfg, st[i], trace[i]) && PassedPhase(st[i].phase);
    var v := st[i].known.passAt;
    if IsAudit(trace[v], MfaSuccess) || IsAudit(trace[v], MfaEnrolled) { SuccessNeedsStoredCode(cfg, trace, st, v); }
    assert st[i].known.passAt < i && SameLogin(trace, st[i].known.authAt, i)
           && GateSettled(cfg, trace, st[i].known.authAt, st[i].known.gateAt, st[i].known.passAt);
  }

  /** m.known.admin and m.known.proven are what the trace says they are. */
  predicate RightsFacts(trace: seq<Obs>, m: Progress, i: nat)
    requires i <= |trace|
  {
    && (m.debt.Verdict? ==> i > 0 && trace[i - 1] == Checked(m.debt.name, m.debt.verdict))
    && (LoggedPhase(m.phase) ==>
          && m.known.authAt < i && IsAudit(trace[m.known.authAt], AuthOK) && trace[m.known.authAt].user == m.known.user
          && m.known.admin == AccountedAdmin(trace, m.known.authAt))
    && (LoggedPhase(m.phase) && m.known.proven ==> Proven(trace, m.known.authAt, m.known.provenAt, i))
  }

  /** The password of the account that logged in at a was checked again at p, and only enrolment screens
      were shown since. */
  predicate Proven(trace: seq<Obs>, a: nat, p: nat, i: nat) {
    && a < p < i <= |trace| && trace[a].Audit? && trace[p].Checked? && trace[p].verdict.Valid?
    && trace[p].name == trace[a].user
    && forall k :: p < k < i ==> trace[k].Shown? ==> trace[k].screen.EnrollMfa?
  }

  lemma StepRights(cfg: Config, m: Progress, n: nat, o: Obs)
    requires Allows(cfg, m, o)
    ensures var q := Advanced(cfg, m, n, o);
            && (q.debt.Verdict? ==> o == Checked(q.debt.name, q.debt.verdict))
            && (LoggedPhase(q.phase) ==>
                  if IsAudit(o, AuthOK)
                  then q.known.authAt == n && !q.known.proven && m.debt.Verdict? && m.debt.verdict.Valid?
                       && (q.known.admin ==> m.debt.verdict.admin)
                  else LoggedPhase(m.phase) && q.known.authAt == m.known.authAt && q.known.admin == m.known.admin)
            && (q.known.proven && LoggedPhase(q.phase) ==>
                  || (q.known.provenAt == n && o.Checked? && o.verdict.Valid?)
                  || (m.known.proven && q.known.provenAt == m.known.provenAt && (o.Shown? ==> o.screen.EnrollMfa?)))
  {
  }

  lemma {:induction false} RightsFactsHold(cfg: Config, trace: seq<Obs>, st: seq<Progress>, i: nat)
    requires Acceptable(cfg, trace, st) && i <= |trace|
    ensures RightsFacts(trace, st[i], i)
  {
    if i > 0 {
      RightsFactsHold(cfg, trace, st, i - 1);
      GateFactsHold(cfg, trace, st, i - 1);
      assert Linked(cfg, trace, st, i - 1);
      RightsFactsStep(cfg, trace, st[i - 1], st[i], i - 1);
    }
  }

  lemma RightsFactsStep(cfg: Config, trace: seq<Obs>, m: Progress, q: Progress, n: nat)
    requires n < |trace| && Allows(cfg, m, trace[n]) && q == Advanced(cfg, m, n, trace[n])
    requires RightsFacts(trace, m, n) && (LoggedPhase(m.phase) ==> m.known.authAt < n)
    ensures RightsFacts(trace, q, n + 1)
  {
    StepRights(cfg, m, n, trace[n]);
  }

  /** The admin screens open, and admin changes are made, only for an account whose login check said
      ZZADMIN; the settings screens open only to an account read as unlocked at this login. */
  lemma AdminAndSettingsAreGated(cfg: Config, trace: seq<Obs>, st: seq<Progress>, i: nat)
    requires Acceptable(cfg, trace, st) && i < |trace|
    ensures (trace[i].Shown? && trace[i].screen.AdminScreen?) || IsAudit(trace[i], AdminChange) ==>
              exists a: nat :: SameLogin(trace, a, i) && AccountedAdmin(trace, a)
    ensures trace[i].Shown? && trace[i].screen.AdminScreen? ==> cfg.hasAdmin
    ensures trace[i].Shown? && trace[i].screen in {Settings, PasswordForm} ==>
              exists a: nat, k: nat :: SameLogin(trace, a, i) && a < k < i && trace[k] == LockRead(false)
  {
    GateFactsHold(cfg, trace, st, i);
    RightsFactsHold(cfg, trace, st, i);
    var m := st[i];
    assert Linked(cfg, trace, st, i);
    if (trace[i].Shown? && trace[i].screen.AdminScreen?) || IsAudit(trace[i], AdminChange) {
      assert SameLogin(trace, m.known.authAt, i) && AccountedAdmin(trace, m.known.authAt);
    }
    if trace[i].Shown? && trace[i].screen in {Settings, PasswordForm} {
      var a, k := m.known.authAt, m.known.lockAt;
      assert SameLogin(trace, a, i) && a < k < i && trace[k] == LockRead(false);
    }
  }

  lemma StepChanges(cfg: Config, m: Progress, n: nat, o: Obs)
    requires Allows(cfg, m, o)
    ensures Advanced(cfg, m, n, o).debt == Change(PasswordSelf) ==> o == Went(Changing)
    ensures Advanced(cfg, m, n, o).debt == Change(MfaCleared) ==> o == Went(Clearing)
  {
  }

  lemma ChangeDebts(cfg: Config, trace: seq<Obs>, st: seq<Progress>, i: nat)
    requires Acceptable(cfg, trace, st) && i <= |trace|
    ensures st[i].debt == Change(PasswordSelf) ==> i > 0 && trace[i - 1] == Went(Changing)
    ensures st[i].debt == Change(MfaCleared) ==> i > 0 && trace[i - 1] == Went(Clearing)
  {
    if i > 0 {
      assert Linked(cfg, trace, st, i - 1);
      StepChanges(cfg, st[i - 1], i - 1, trace[i - 1]);
    }
  }

  /** Changing the password, clearing MFA and re-enrolling from the settings come only after the
      current password was checked again in this login, with nothing but enrolment screens shown
      since; and a change is recorded only once it has been stored. */
  lemma SelfServiceNeedsPassword(cfg: Config, trace: seq<Obs>, st: seq<Progress>, i: nat)
    requires Acceptable(cfg, trace, st) && i < |trace|
    requires || IsAudit(trace[i], PasswordSelf) || IsAudit(trace[i], MfaCleared)
             || (trace[i].Shown? && trace[i].screen.EnrollMfa? && st[i].phase.Passed?)
    ensures exists a: nat, p: nat :: SameLogin(trace, a, i) && Proven(trace, a, p, i)
    ensures IsAudit(trace[i], PasswordSelf) ==> i > 0 && trace[i - 1] == Went(Changing)
    ensures IsAudit(trace[i], MfaCleared) ==> i > 0 && trace[i - 1] == Went(Clearing)
  {
    ChangeDebts(cfg, trace, st, i);
    GateFactsHold(cfg, trace, st, i);
    RightsFactsHold(cfg, trace, st, i);
    assert Linked(cfg, trace, st, i);
    assert Allows(cfg, st[i], trace[i]);
    assert SameLogin(trace, st[i].known.authAt, i) && Proven(trace, st[i].known.authAt, st[i].known.provenAt, i);
  }

  // ---------------------------------------------------------------- news, menu and settings

  predicate NewsIsRead(m: Progress) { PassedPhase(m.phase) && !m.place.Entering? }

  predicate LockIsRead(m: Progress) { NewsIsRead(m) && !m.place.NewsDone? }

  /** The news and the lock are read once each after the gate, and where. */
  predicate EntryFacts(trace: seq<Obs>, m: Progress, i: nat)
    requires i <= |trace|
  {
    LoggedPhase(m.phase) ==>
      var k := m.known;
      && k.authAt < i
      && (forall j :: k.authAt < j < i && trace[j].NewsRead? ==> NewsIsRead(m) && j == k.newsAt)
      && (forall j :: k.authAt < j < i && trace[j].LockRead? ==> LockIsRead(m) && j == k.lockAt)
      && (NewsIsRead(m) ==> k.authAt < k.newsAt < i && trace[k.newsAt].NewsRead?)
      && (LockIsRead(m) ==> k.newsAt < k.lockAt < i && trace[k.lockAt] == LockRead(!k.unlocked))
  }

  lemma StepEntry(cfg: Config, m: Progress, n: nat, o: Obs)
    requires Allows(cfg, m, o)
    ensures var q := Advanced(cfg, m, n, o);
            && (LoggedPhase(q.phase) ==>
                  if IsAudit(o, AuthOK) then q.known.authAt == n && !PassedPhase(q.phase)
                  else LoggedPhase(m.phase) && q.known.authAt == m.known.authAt)
            && (o.NewsRead? ==>
                  PassedPhase(m.phase) && !NewsIsRead(m) && q.known.newsAt == n && NewsIsRead(q) && !LockIsRead(q))
            && (o.LockRead? ==>
                  && NewsIsRead(m) && !LockIsRead(m) && LockIsRead(q)
                  && q.known.lockAt == n && q.known.newsAt == m.known.newsAt && o == LockRead(!q.known.unlocked))
            && (!o.NewsRead? && !o.LockRead? && LoggedPhase(q.phase) && LoggedPhase(m.phase) ==>
                  && NewsIsRead(q) == NewsIsRead(m) && LockIsRead(q) == LockIsRead(m)
                  && q.known.newsAt == m.known.newsAt && q.known.lockAt == m.known.lockAt
                  && q.known.unlocked == m.known.unlocked)
  {
  }

  lemma {:induction false} EntryFactsHold(cfg: Config, trace: seq<Obs>, st: seq<Progress>, i: nat)
    requires Acceptable(cfg, trace, st) && i <= |trace|
    ensures EntryFacts(trace, st[i], i)
  {
    if i > 0 {
      EntryFactsHold(cfg, trace, st, i - 1);
      assert Linked(cfg, trace, st, i - 1);
      EntryFactsStep(cfg, trace, st[i - 1], st[i], i - 1);
    }
  }

  lemma EntryFactsStep(cfg: Config, trace: seq<Obs>, m: Progress, q: Progress, n: nat)
    requires n < |trace| && Allows(cfg, m, trace[n]) && q == Advanced(cfg, m, n, trace[n])
    requires EntryFacts(trace, m, n)
    ensures EntryFacts(trace, q, n + 1)
  {
    StepEntry(cfg, m, n, trace[n]);
  }

  predicate IsScreen(o: Obs, screen: Screen) { o.Shown? && o.screen == screen }

  /** In the login at a, this is the one reading of the news, or of the lock, before i. */
  predicate TheNewsRead(trace: seq<Obs>, a: nat, n: nat, i: nat) {
    a < n < i <= |trace| && trace[n].NewsRead? && forall j :: a < j < i && trace[j].NewsRead? ==> j == n
  }

  predicate TheLockRead(trace: seq<Obs>, a: nat, l: nat, i: nat) {
    a < l < i <= |trace| && trace[l].LockRead? && forall j :: a < j < i && trace[j].LockRead? ==> j == l
  }

  /** Before the menu is shown in a login the news has been read exactly once, and the self-service lock
      exactly once after it. */
  lemma NewsAndLockAreReadOnce(cfg: Config, trace: seq<Obs>, st: seq<Progress>, i: nat)
    requires Acceptable(cfg, trace, st) && i < |trace| && IsScreen(trace[i], Menu)
    ensures exists a: nat, n: nat, l: nat ::
              SameLogin(trace, a, i) && n < l && TheNewsRead(trace, a, n, i) && TheLockRead(trace, a, l, i)
  {
    GateFactsHold(cfg, trace, st, i);
    EntryFactsHold(cfg, trace, st, i);
    assert Linked(cfg, trace, st, i);
    var k := st[i].known;
    assert SameLogin(trace, k.authAt, i) && TheNewsRead(trace, k.authAt, k.newsAt, i)
           && TheLockRead(trace, k.authAt, k.lockAt, i);
  }

  lemma StepNews(cfg: Config, m: Progress, n: nat, o: Obs)
    requires Allows(cfg, m, o)
    ensures Advanced(cfg, m, n, o).debt.Announcing? <==> o == NewsRead(true)
    ensures IsScreen(o, News) ==> m.debt.Announcing?
    ensures m.debt.Announcing? ==> IsScreen(o, News)
  {
  }

  /** The news is shown exactly when there is some, as soon as it has been read. */
  lemma NewsIsShownIffPresent(cfg: Config, trace: seq<Obs>, st: seq<Progress>, i: nat)
    requires Complete(cfg, trace, st) && i < |trace|
    ensures trace[i] == NewsRead(true) ==> i + 1 < |trace| && IsScreen(trace[i + 1], News)
    ensures IsScreen(trace[i], News) ==> i > 0 && trace[i - 1] == NewsRead(true)
  {
    Placed(cfg, trace, st, i);
    assert Linked(cfg, trace, st, i);
    StepNews(cfg, st[i], i, trace[i]);
    if i > 0 {
      assert Linked(cfg, trace, st, i - 1);
      StepNews(cfg, st[i - 1], i - 1, trace[i - 1]);
    }
    if trace[i] == NewsRead(true) {
      assert Linked(cfg, trace, st, i + 1);
      StepNews(cfg, st[i + 1], i + 1, trace[i + 1]);
    }
  }

  /** What a place allows next while nothing is owed. */
  lemma StepPlaces(cfg: Config, m: Progress, o: Obs)
    requires Allows(cfg, m, o) && m.phase.Passed? && m.debt.Nothing?
    ensures m.place.AtMenu? ==> IsScreen(o, Menu)
    ensures m.place.AdminDue? ==> IsScreen(o, AdminScreen)
    ensures m.place.SettingsDue? ==> IsLoading(o)
    ensures m.place.SettingsOpen? ==> IsScreen(o, Settings)
    ensures m.place.Doing? ==> IsScreen(o, PasswordForm)
  {
  }

  /** The account is read, or cannot be, for the settings menu. */
  predicate IsLoading(o: Obs) { o.UserRead? || (o.Trouble? && o.call.LoadingUser?) }

  /** A prompt after which nothing is owed. */
  predicate Plain(out: Outcome) { out.Answered? || out.AdminChosen? || out.SettingsChosen? || out.OptionChosen? }

  lemma StepMenu(cfg: Config, m: Progress, n: nat, o: Obs)
    requires Allows(cfg, m, o) && IsScreen(o, Menu)
    ensures m.phase.Passed?
    ensures Plain(o.outcome) ==>
              var q := Advanced(cfg, m, n, o);
              && q.phase.Passed? && q.debt.Nothing?
              && q.place == (if o.outcome.AdminChosen? && m.known.admin && cfg.hasAdmin then AdminDue
                             else if o.outcome.SettingsChosen? && m.known.unlocked then SettingsDue else AtMenu)
  {
  }

  /** Every menu choice is honoured at once. Choosing the admin entry opens the admin screens if and only
      if this login's check said ZZADMIN and there is an admin presenter; choosing the settings entry
      loads them if and only if the lock read at this login was off; otherwise, and for any other
      answer, the menu is shown again. */
  lemma MenuChoicesAreHonoured(cfg: Config, trace: seq<Obs>, st: seq<Progress>, i: nat)
    requires Complete(cfg, trace, st) && i < |trace| && IsScreen(trace[i], Menu) && Plain(trace[i].outcome)
    ensures i + 1 < |trace|
    ensures exists a: nat, l: nat ::
              && SameLogin(trace, a, i) && TheLockRead(trace, a, l, i)
              && if trace[i].outcome.AdminChosen? && cfg.hasAdmin && AccountedAdmin(trace, a)
                 then IsScreen(trace[i + 1], AdminScreen)
                 else if trace[i].outcome.SettingsChosen? && !trace[l].locked then IsLoading(trace[i + 1])
                 else IsScreen(trace[i + 1], Menu)
  {
    Placed(cfg, trace, st, i);
    GateFactsHold(cfg, trace, st, i);
    RightsFactsHold(cfg, trace, st, i);
    EntryFactsHold(cfg, trace, st, i);
    assert Linked(cfg, trace, st, i);
    StepMenu(cfg, st[i], i, trace[i]);
    assert Linked(cfg, trace, st, i + 1);
    StepPlaces(cfg, st[i + 1], trace[i + 1]);
    var k := st[i].known;
    assert LockIsRead(st[i]);
    assert SameLogin(trace, k.authAt, i) && TheLockRead(trace, k.authAt, k.lockAt, i);
  }

  /** trace[j] is the menu with this outcome, and nothing after it leaves the admin screens. */
  predicate AdminSince(trace: seq<Obs>, j: nat, i: nat) {
    && j < i <= |trace| && IsScreen(trace[j], Menu) && trace[j].outcome.AdminChosen?
    && forall k :: j < k < i ==> IsScreen(trace[k], AdminScreen) || IsAudit(trace[k], AdminChange)
  }

  predicate AtAdmin(m: Progress) { m.phase.Passed? && m.debt.Nothing? && (m.place.AdminDue? || m.place.InAdmin?) }

  lemma StepAdmin(cfg: Config, m: Progress, n: nat, o: Obs)
    requires Allows(cfg, m, o)
    ensures AtAdmin(Advanced(cfg, m, n, o)) ==>
              || (IsScreen(o, Menu) && o.outcome.AdminChosen?)
              || (AtAdmin(m) && (IsScreen(o, AdminScreen) || IsAudit(o, AdminChange)))
    ensures IsScreen(o, AdminScreen) || IsAudit(o, AdminChange) ==> AtAdmin(m)
  {
  }

  lemma {:induction false} AdminPlaces(cfg: Config, trace: seq<Obs>, st: seq<Progress>, i: nat)
    requires Acceptable(cfg, trace, st) && i <= |trace| && AtAdmin(st[i])
    ensures exists j: nat :: AdminSince(trace, j, i)
  {
    if i > 0 {
      assert Linked(cfg, trace, st, i - 1);
      StepAdmin(cfg, st[i - 1], i - 1, trace[i - 1]);
      if IsScreen(trace[i - 1], Menu) {
        assert AdminSince(trace, i - 1, i);
      } else {
        AdminPlaces(cfg, trace, st, i - 1);
        var j: nat :| AdminSince(trace, j, i - 1);
        assert AdminSince(trace, j, i);
      }
    }
  }

  /** Admin screens are open, and admin changes made, only by choosing that entry at the menu, with
      nothing but admin screens since. */
  lemma AdminIsChosen(cfg: Config, trace: seq<Obs>, st: seq<Progress>, i: nat)
    requires Acceptable(cfg, trace, st) && i < |trace|
    requires IsScreen(trace[i], AdminScreen) || IsAudit(trace[i], AdminChange)
    ensures exists j: nat :: AdminSince(trace, j, i)
  {
    assert Linked(cfg, trace, st, i);
    StepAdmin(cfg, st[i], i, trace[i]);
    AdminPlaces(cfg, trace, st, i);
  }

  /** trace[j] is the menu with the settings entry chosen, and the menu has not been back since. */
  predicate SettingsSince(trace: seq<Obs>, j: nat, i: nat) {
    && j < i <= |trace| && IsScreen(trace[j], Menu) && trace[j].outcome.SettingsChosen?
    && forall k :: j < k < i ==> !IsScreen(trace[k], Menu) && !IsScreen(trace[k], AdminScreen)
  }

  predicate AtSettings(m: Progress) {
    && m.phase.Passed?
    && (m.place.SettingsDue? || m.place.SettingsOpen? || m.place.Doing? || m.place.Proved? || m.place.Enrolling?)
  }

  lemma StepSettings(cfg: Config, m: Progress, n: nat, o: Obs)
    requires Allows(cfg, m, o)
    ensures AtSettings(Advanced(cfg, m, n, o)) ==>
              || (IsScreen(o, Menu) && o.outcome.SettingsChosen?)
              || (AtSettings(m) && !IsScreen(o, Menu) && !IsScreen(o, AdminScreen))
    ensures o.UserRead? || IsScreen(o, Settings) || IsScreen(o, PasswordForm) ==> AtSettings(m)
  {
  }

  lemma {:induction false} SettingsPlaces(cfg: Config, trace: seq<Obs>, st: seq<Progress>, i: nat)
    requires Acceptable(cfg, trace, st) && i <= |trace| && AtSettings(st[i])
    ensures exists j: nat :: SettingsSince(trace, j, i)
  {
    if i > 0 {
      assert Linked(cfg, trace, st, i - 1);
      StepSettings(cfg, st[i - 1], i - 1, trace[i - 1]);
      if IsScreen(trace[i - 1], Menu) {
        assert SettingsSince(trace, i - 1, i);
      } else {
        SettingsPlaces(cfg, trace, st, i - 1);
        var j: nat :| SettingsSince(trace, j, i - 1);
        assert SettingsSince(trace, j, i);
      }
    }
  }

  /** The settings screens are reached only by choosing that entry at the menu, with no other menu or
      admin screen since. */
  lemma SettingsAreChosen(cfg: Config, trace: seq<Obs>, st: seq<Progress>, i: nat)
    requires Acceptable(cfg, trace, st) && i < |trace|
    requires trace[i].UserRead? || IsScreen(trace[i], Settings) || IsScreen(trace[i], PasswordForm)
    ensures exists j: nat :: SettingsSince(trace, j, i)
  {
    assert Linked(cfg, trace, st, i);
    StepSettings(cfg, st[i], i, trace[i]);
    SettingsPlaces(cfg, trace, st, i);
  }

  /** At j the settings menu, loaded just before, was left by choosing the row of this action. */
  predicate Chose(cfg: Config, trace: seq<Obs>, j: nat, action: Action) {
    && 0 < j < |trace| && trace[j - 1].UserRead? && IsScreen(trace[j], Settings) && trace[j].outcome.OptionChosen?
    && var rows := Actions(cfg.mfa, trace[j - 1].enrolled, trace[j - 1].required);
       1 <= trace[j].outcome.option <= |rows| && rows[trace[j].outcome.option - 1] == action
  }

  predicate ChoseSince(cfg: Config, trace: seq<Obs>, j: nat, action: Action, i: nat) {
    j < i <= |trace| && Chose(cfg, trace, j, action) && forall k :: j < k < i ==> !IsScreen(trace[k], Settings)
  }

  /** The action whose form is shown or has been passed. */
  function Pursued(m: Progress): Option<Action> {
    if !m.phase.Passed? then None
    else if m.place.Doing? || m.place.Proved? then Some(m.place.action) else None
  }

  lemma StepActions(cfg: Config, m: Progress, n: nat, o: Obs)
    requires Allows(cfg, m, o)
    ensures var q := Advanced(cfg, m, n, o);
            && (Pursued(q).Some? ==>
                  if IsScreen(o, Settings)
                  then o.outcome.OptionChosen? && 1 <= o.outcome.option <= |m.known.offered|
                       && m.known.offered[o.outcome.option - 1] == Pursued(q).value
                  else Pursued(m) == Pursued(q))
            && (Enrols(q) ==> !IsScreen(o, Settings) && (Enrols(m) || Pursued(m) in {Some(Enroll), Some(Reenroll)}))
    ensures IsScreen(o, Settings) ==> m.place.SettingsOpen? && m.phase.Passed?
  {
  }

  lemma StepLoads(cfg: Config, m: Progress, n: nat, o: Obs)
    requires Allows(cfg, m, o)
    ensures var q := Advanced(cfg, m, n, o);
            q.phase.Passed? && q.place.SettingsOpen? ==>
              o.UserRead? && q.known.offered == Actions(cfg.mfa, o.enrolled, o.required)
  {
  }

  /** A settings prompt left by a row's number was left for the action in that row. */
  lemma RowIsChosen(cfg: Config, trace: seq<Obs>, st: seq<Progress>, i: nat, action: Action)
    requires Acceptable(cfg, trace, st) && i < |trace| && IsScreen(trace[i], Settings)
    requires Pursued(st[i + 1]) == Some(action)
    ensures Chose(cfg, trace, i, action)
  {
    assert Linked(cfg, trace, st, i);
    StepActions(cfg, st[i], i, trace[i]);
    assert i > 0;
    assert Linked(cfg, trace, st, i - 1);
    StepLoads(cfg, st[i - 1], i - 1, trace[i - 1]);
  }

  lemma {:induction false} ActionPlaces(cfg: Config, trace: seq<Obs>, st: seq<Progress>, i: nat)
    requires Acceptable(cfg, trace, st) && i <= |trace|
    ensures Pursued(st[i]).Some? ==> exists j: nat :: ChoseSince(cfg, trace, j, Pursued(st[i]).value, i)
    ensures Enrols(st[i]) ==>
              exists j: nat, action :: action in {Enroll, Reenroll} && ChoseSince(cfg, trace, j, action, i)
  {
    if i > 0 && (Pursued(st[i]).Some? || Enrols(st[i])) {
      assert Linked(cfg, trace, st, i - 1);
      StepActions(cfg, st[i - 1], i - 1, trace[i - 1]);
      if IsScreen(trace[i - 1], Settings) {
        RowIsChosen(cfg, trace, st, i - 1, Pursued(st[i]).value);
        assert ChoseSince(cfg, trace, i - 1, Pursued(st[i]).value, i);
      } else {
        ActionPlaces(cfg, trace, st, i - 1);
        if Pursued(st[i - 1]).Some? {
          var action := Pursued(st[i - 1]).value;
          var j: nat :| ChoseSince(cfg, trace, j, action, i - 1);
          assert ChoseSince(cfg, trace, j, action, i);
        } else {
          var j: nat, action :| action in {Enroll, Reenroll} && ChoseSince(cfg, trace, j, action, i - 1);
          assert ChoseSince(cfg, trace, j, action, i);
        }
      }
    }
  }

  /** A password change, a cleared secret and a self-service enrolment each carry out the row chosen at
      the settings menu last shown, as that menu was offered for the account just read. A cleared secret
      was therefore a voluntary one. */
  lemma SelfServiceIsChosen(cfg: Config, trace: seq<Obs>, st: seq<Progress>, i: nat)
    requires Acceptable(cfg, trace, st) && i < |trace|
    ensures IsAudit(trace[i], PasswordSelf) ==> exists j: nat :: ChoseSince(cfg, trace, j, ChangePassword, i)
    ensures IsAudit(trace[i], MfaCleared) ==>
              exists j: nat ::
                ChoseSince(cfg, trace, j, Disable, i) && trace[j - 1] == UserRead(true, false)
    ensures trace[i].Shown? && trace[i].screen.EnrollMfa? && st[i].phase.Passed? ==>
              exists j: nat, action :: action in {Enroll, Reenroll} && ChoseSince(cfg, trace, j, action, i)
  {
    assert Linked(cfg, trace, st, i);
    ActionPlaces(cfg, trace, st, i);
    if IsAudit(trace[i], MfaCleared) {
      var j: nat :| ChoseSince(cfg, trace, j, Disable, i);
      assert trace[j - 1] == UserRead(true, false);
    }
  }

  lemma StepOptions(cfg: Config, m: Progress, n: nat, o: Obs)
    requires Allows(cfg, m, o) && IsScreen(o, Settings) && o.outcome.OptionChosen?
    ensures var q := Advanced(cfg, m, n, o);
            && q.phase.Passed? && q.debt.Nothing?
            && if 1 <= o.outcome.option <= |m.known.offered| then q.place.Doing? else q.place.SettingsDue?
  {
  }

  /** A row's number opens the password form; any other answer loads the menu again. */
  lemma OptionsAreHonoured(cfg: Config, trace: seq<Obs>, st: seq<Progress>, i: nat)
    requires Complete(cfg, trace, st) && i < |trace|
    requires IsScreen(trace[i], Settings) && trace[i].outcome.OptionChosen?
    ensures i > 0 && trace[i - 1].UserRead? && i + 1 < |trace|
    ensures if exists action :: Chose(cfg, trace, i, action) then IsScreen(trace[i + 1], PasswordForm)
            else IsLoading(trace[i + 1])
  {
    Placed(cfg, trace, st, i);
    assert Linked(cfg, trace, st, i);
    StepActions(cfg, st[i], i, trace[i]);
    StepOptions(cfg, st[i], i, trace[i]);
    assert Linked(cfg, trace, st, i - 1);
    StepLoads(cfg, st[i - 1], i - 1, trace[i - 1]);
    assert Linked(cfg, trace, st, i + 1);
    StepPlaces(cfg, st[i + 1], trace[i + 1]);
    var rows := Actions(cfg.mfa, trace[i - 1].enrolled, trace[i - 1].required);
    if 1 <= trace[i].outcome.option <= |rows| { assert Chose(cfg, trace, i, rows[trace[i].outcome.option - 1]); }
  }

  /** trace[j] is the settings menu left by this row's number, and the last time it was shown before i. */
  predicate RowSince(trace: seq<Obs>, j: nat, row: int, i: nat) {
    && 0 < j < i <= |trace| && IsScreen(trace[j], Settings) && trace[j].outcome == OptionChosen(row)
    && forall k :: j < k < i ==> !IsScreen(trace[k], Settings)
  }

  /** The same by row number: row 1 changes the password; with MFA, row 2 enrols, and row 3 clears the
      secret of an account just read as enrolled and not required to be. */
  lemma SelfServiceByRow(cfg: Config, trace: seq<Obs>, st: seq<Progress>, i: nat)
    requires Acceptable(cfg, trace, st) && i < |trace|
    ensures IsAudit(trace[i], PasswordSelf) ==> exists j: nat :: RowSince(trace, j, 1, i)
    ensures IsAudit(trace[i], MfaCleared) ==>
              cfg.mfa && exists j: nat :: RowSince(trace, j, 3, i) && trace[j - 1] == UserRead(true, false)
    ensures trace[i].Shown? && trace[i].screen.EnrollMfa? && st[i].phase.Passed? ==>
              cfg.mfa && exists j: nat :: RowSince(trace, j, 2, i)
  {
    SelfServiceIsChosen(cfg, trace, st, i);
    if IsAudit(trace[i], PasswordSelf) {
      var j: nat :| ChoseSince(cfg, trace, j, ChangePassword, i);
      assert RowSince(trace, j, 1, i);
    }
    if IsAudit(trace[i], MfaCleared) {
      var j: nat :| ChoseSince(cfg, trace, j, Disable, i) && trace[j - 1] == UserRead(true, false);
      assert RowSince(trace, j, 3, i);
    }
    if trace[i].Shown? && trace[i].screen.EnrollMfa? && st[i].phase.Passed? {
      var j: nat, action :| action in {Enroll, Reenroll} && ChoseSince(cfg, trace, j, action, i);
      assert RowSince(trace, j, 2, i);
    }
  }

  /** And every row offered opens its form. */
  lemma RowsOpenForms(cfg: Config, trace: seq<Obs>, st: seq<Progress>, i: nat)
    requires Complete(cfg, trace, st) && i < |trace|
    requires IsScreen(trace[i], Settings) && trace[i].outcome.OptionChosen?
    ensures 0 < i < |trace| - 1
    ensures IsScreen(trace[i + 1], PasswordForm) <==>
              var row := trace[i].outcome.option;
              row == 1 || (row == 2 && cfg.mfa) || (row == 3 && cfg.mfa && trace[i - 1] == UserRead(true, false))
  {
    OptionsAreHonoured(cfg, trace, st, i);
    var rows := Actions(cfg.mfa, trace[i - 1].enrolled, trace[i - 1].required);
    if 1 <= trace[i].outcome.option <= |rows| { assert Chose(cfg, trace, i, rows[trace[i].outcome.option - 1]); }
  }

  lemma StepProved(cfg: Config, m: Progress, n: nat, o: Obs)
    requires Allows(cfg, m, o)
    ensures var q := Advanced(cfg, m, n, o);
            && (q.phase.Passed? && q.place.Proved? && q.debt.Nothing? ==> o.Checked? && o.verdict.Valid?)
            && (o.Checked? && o.verdict.Valid? && !q.phase.AtLogin? ==>
                  q.phase.Passed? && q.place.Proved? && q.debt.Nothing?)
            && (o.Checked? ==> q.phase.AtLogin? || q.phase.Passed?)
    ensures m.phase.Passed? && m.place.Proved? && m.debt.Nothing? ==>
              match m.place.action
              case ChangePassword => o == Went(Changing) || o == Declined
              case Disable => IsCall(o, Clearing)
              case _ => IsCall(o, GeneratingSecret)
  {
  }

  /** The outcome of this call, good or bad. */
  predicate IsCall(o: Obs, call: Call) { o == Went(call) || (o.Trouble? && o.call == call) }

  /** Once the current password is accepted on a form, the row's own call comes next: the new password is
      judged, a secret is generated, or the stored one is cleared. */
  lemma AcceptedPasswordLeadsOn(cfg: Config, trace: seq<Obs>, st: seq<Progress>, i: nat)
    requires Complete(cfg, trace, st) && 0 < i < |trace| && trace[i].Checked? && trace[i].verdict.Valid?
    requires !IsLogin(trace[i - 1])
    ensures i + 1 < |trace|
    ensures exists j: nat, row: int ::
              && RowSince(trace, j, row, i)
              && if row == 1 then trace[i + 1] == Went(Changing) || trace[i + 1] == Declined
                 else if row == 2 then IsCall(trace[i + 1], GeneratingSecret)
                 else row == 3 && IsCall(trace[i + 1], Clearing)
  {
    Placed(cfg, trace, st, i);
    assert Linked(cfg, trace, st, i);
    CheckDebts(cfg, trace, st, i);
    StepProved(cfg, st[i], i, trace[i]);
    assert Linked(cfg, trace, st, i + 1);
    StepProved(cfg, st[i + 1], i + 1, trace[i + 1]);
    ActionPlaces(cfg, trace, st, i + 1);
    var action := st[i + 1].place.action;
    var j: nat :| ChoseSince(cfg, trace, j, action, i + 1);
    assert RowSince(trace, j, trace[j].outcome.option, i);
  }

  // ---------------------------------------------------------------- calls that fail

  /** A failed call after which a timeout only logs out: clearing a secret, storing an enrolment's code,
      generating a secret for a form just passed, or loading the settings. */
  predicate Lenient(trace: seq<Obs>, i: nat)
    requires i < |trace| && trace[i].Trouble?
  {
    match trace[i].call
    case Clearing => true
    case Storing => i > 1 && IsScreen(trace[i - 2], EnrollMfa)
    case GeneratingSecret => i > 0 && trace[i - 1].Checked?
    case LoadingUser => i > 0 && !IsAudit(trace[i - 1], AuthOK)
    case _ => false
  }

  lemma StepFails(cfg: Config, m: Progress, n: nat, o: Obs)
    requires Allows(cfg, m, o)
    ensures var q := Advanced(cfg, m, n, o);
            && (q.phase.Authenticated? && q.debt.Nothing? ==> IsAudit(o, AuthOK))
            && (q.phase.Passed? ==> !IsAudit(o, AuthOK))
            && (o.Trouble? ==> q.phase == m.phase)
            && (o.Trouble? && o.call == LoadingUser ==> m.phase.Authenticated? || m.phase.Passed?)
            && (o.Trouble? && o.call in {LoadingUser, GeneratingSecret} ==> m.debt.Nothing?)
            && (o.Trouble? && o.call == GeneratingSecret ==>
                  m.phase.MustEnroll? || (m.phase.Passed? && m.place.Proved?))
            && (o.Trouble? && o.call == Clearing ==> m.phase.Passed?)
            && (o.Trouble? && o.call == OpeningSecret ==> m.phase.MustVerify?)
            && (o.Trouble? && o.call == Negotiating ==> m.phase.Connected?)
            && (o.Trouble? && o.call == Storing ==> m.debt.Keep?)
            && (o.Trouble? ==> o.call != Changing)
            && (o.CodeChecked? || o.Shown? ==> q.phase == m.phase)
            && (IsScreen(o, VerifyMfa) ==> m.phase.MustVerify?)
            && (IsScreen(o, EnrollMfa) ==> m.phase.MustEnroll? || m.phase.Passed?)
  {
  }

  /** What the phase of a failed call says about the observations before it. */
  lemma FailedWhere(cfg: Config, trace: seq<Obs>, st: seq<Progress>, i: nat)
    requires Complete(cfg, trace, st) && i < |trace| && trace[i].Trouble?
    ensures Lenient(trace, i) <==> st[i].phase.Passed? || (st[i].phase.MustEnroll? && trace[i].call == Storing)
  {
    Placed(cfg, trace, st, i);
    assert Linked(cfg, trace, st, i);
    StepFails(cfg, st[i], i, trace[i]);
    assert Linked(cfg, trace, st, i - 1);
    StepFails(cfg, st[i - 1], i - 1, trace[i - 1]);
    StepProved(cfg, st[i - 1], i - 1, trace[i - 1]);
    if trace[i].call == Storing {
      CodeDebts(cfg, trace, st, i);
      CodeDebts(cfg, trace, st, i - 1);
      assert Linked(cfg, trace, st, i - 2);
      StepFails(cfg, st[i - 2], i - 2, trace[i - 2]);
    }
  }

  /** A call that fails ends the connection at once, but for a timeout where the user is only logged out. */
  lemma FailedCallsAreHandled(cfg: Config, trace: seq<Obs>, st: seq<Progress>, i: nat)
    requires Complete(cfg, trace, st) && i < |trace| && trace[i].Trouble?
    ensures i + 1 < |trace|
    ensures if trace[i].timeout && Lenient(trace, i) then IsAudit(trace[i + 1], Logout)
            else IsAudit(trace[i + 1], Disconnect)
  {
    Placed(cfg, trace, st, i);
    FailedWhere(cfg, trace, st, i);
    assert Linked(cfg, trace, st, i);
    assert Linked(cfg, trace, st, i + 1);
    StepPays(cfg, st[i + 1], trace[i + 1]);
  }

  // ---------------------------------------------------------------- what follows an answered prompt

  lemma StepAnswered(cfg: Config, m: Progress, n: nat, o: Obs)
    requires Allows(cfg, m, o)
    ensures m.debt.Check? ==> o.Checked? && o.name == m.debt.name
    ensures m.debt.Code? ==> o.CodeChecked?
    ensures m.debt.Starting? ==> IsAudit(o, BridgeStart) && o.service == m.debt.service
    ensures IsLogin(o) && o.outcome.Answered? ==> Advanced(cfg, m, n, o).debt == Check(o.outcome.name)
    ensures o.Shown? && o.screen in {VerifyMfa, EnrollMfa} && o.outcome.Answered? ==> Advanced(cfg, m, n, o).debt.Code?
    ensures o.Shown? && o.outcome.Picked? ==> Advanced(cfg, m, n, o).debt == Starting(o.outcome.service)
  {
  }

  lemma AnsweredStep(cfg: Config, trace: seq<Obs>, st: seq<Progress>, i: nat)
    requires Complete(cfg, trace, st) && i < |trace| && trace[i].Shown?
    ensures i + 1 < |trace| && Allows(cfg, st[i], trace[i]) && Allows(cfg, st[i + 1], trace[i + 1])
    ensures st[i + 1] == Advanced(cfg, st[i], i, trace[i])
  {
    Placed(cfg, trace, st, i);
    assert Linked(cfg, trace, st, i) && Linked(cfg, trace, st, i + 1);
  }

  /** Credentials entered at the login screen are checked next, under the name typed. */
  lemma CheckFollows(cfg: Config, trace: seq<Obs>, st: seq<Progress>, i: nat)
    requires Complete(cfg, trace, st) && i < |trace| && IsLogin(trace[i]) && trace[i].outcome.Answered?
    ensures i + 1 < |trace| && trace[i + 1].Checked? && trace[i + 1].name == trace[i].outcome.name
  {
    AnsweredStep(cfg, trace, st, i);
    StepAnswered(cfg, st[i], i, trace[i]);
    StepAnswered(cfg, st[i + 1], i + 1, trace[i + 1]);
  }

  /** A code entered is validated next. */
  lemma CodeFollows(cfg: Config, trace: seq<Obs>, st: seq<Progress>, i: nat)
    requires Complete(cfg, trace, st) && i < |trace|
    requires trace[i].Shown? && trace[i].screen in {VerifyMfa, EnrollMfa} && trace[i].outcome.Answered?
    ensures i + 1 < |trace| && trace[i + 1].CodeChecked?
  {
    AnsweredStep(cfg, trace, st, i);
    StepAnswered(cfg, st[i], i, trace[i]);
    StepAnswered(cfg, st[i + 1], i + 1, trace[i + 1]);
  }

  /** A service picked is started next. */
  lemma PickFollows(cfg: Config, trace: seq<Obs>, st: seq<Progress>, i: nat)
    requires Complete(cfg, trace, st) && i < |trace| && trace[i].Shown? && trace[i].outcome.Picked?
    ensures i + 1 < |trace| && IsAudit(trace[i + 1], BridgeStart) && trace[i + 1].service == trace[i].outcome.service
  {
    AnsweredStep(cfg, trace, st, i);
    StepAnswered(cfg, st[i], i, trace[i]);
    StepAnswered(cfg, st[i + 1], i + 1, trace[i + 1]);
  }

  /** PF3 at the settings menu brings the service menu back. */
  lemma MenuFollows(cfg: Config, trace: seq<Obs>, st: seq<Progress>, i: nat)
    requires Complete(cfg, trace, st) && i < |trace| && IsScreen(trace[i], Settings) && trace[i].outcome.Back?
    ensures i + 1 < |trace| && IsScreen(trace[i + 1], Menu)
  {
    AnsweredStep(cfg, trace, st, i);
    StepPlaces(cfg, st[i + 1], trace[i + 1]);
  }
}
