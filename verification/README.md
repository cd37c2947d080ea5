# tn3270proxy: a verified model

tn3270proxy is a TN3270 gateway. A terminal connects, its user logs in, passes an MFA step, and picks
backend hosts from a menu; PA3 pressed at the start of a 3270 record brings the menu back. This project
models the parts of the gateway that carry its guarantees and proves those guarantees over every input,
every run or every interleaving.

| file | what it models |
|---|---|
| `Telnet.dfy` | the grammar of a Telnet/TN3270 byte stream (RFC 854, RFC 885, RFC 1091 section 2) and the bridge's streaming parser, proved to follow it |
| `TelnetLaws.dfy` | what the parser promises about streams of records: escape, transparency, fixed point, negotiation |
| `Relay.dfy` | the read, process and write loop of one direction of a bridge |
| `IdleConn.dfy` | the deadline wrapper around a client connection |
| `BridgeRace.dfy` | two relays and the bridge that supervises them, in every interleaving |
| `SessionTrace.dfy` | which traces of audit events, prompts, checks and regimes one connection may produce, and what every such trace guarantees |
| `Session.dfy` | the session itself, proved to produce only those traces |
| `Admission.dfy` | connection slots, global and per client address, and the rule for the error that stops the server |
| `Throttle.dfy` | per-user backoff after failed authentication |
| `Totp.dfy`, `MfaKeys.dfy` | one-time codes with a replay floor; the agreement of the master key, its sentinel and the stored secrets |
| `AdminGuard.dfy` | the guards that keep an administrator in ZZADMIN |
| `Migration.dfy` | the schema ledger and default rows under crashes |
| `Layout.dfy`, `Editor.dfy`, `ListDriver.dfy`, `WrapText.dfy` | paging, the line editor, confirm-gated lists and details, line breaking |
| `Text.dfy`, `Prelude.dfy` | upper-casing and trimming; types several modules share |

## How the models are built

Code that changes state step by step is a class or a method with its loop, tied by its contract to a
specification function; the laws are lemmas about that function. Concurrent code is a state machine whose
atomic steps are the program's own (one channel operation, one critical section, one system call), and the
laws hold of every legal sequence of steps. Answers that come from outside (the network, the terminal, the
store, a cipher, the clock) are parameters: scripts, functions, or the environment's steps.

`Telnet.Parse` reads a byte stream as tokens and an unfinished tail; `Spell` writes a reading back, and
`ReadingIsUnique` says no other reading exists. The laws of the bridge are about the records that reading
carries, not about the parser's states.

`SessionTrace.Allows` is a checker of single observations. After each observation something may be owed to
the next one: a refused password owes an auth_fail, a prompt that timed out owes a logout, a menu choice
that the user has the right to owes the screen it opens, a logout owes a
rearming of the pre-auth regime. The session's methods are proved to emit only allowed observations, and
`Session.Run` to end with the connection closed. What the lemmas of `SessionTrace` conclude is about
positions in the trace, not about that bookkeeping. Everything a session learns from outside is one of its
facts; `Session.Run` is proved to consume them in order, none skipped and none twice, with every prompt,
check, call, stored fact and bridge in the trace being what its fact answers. From a point its environment
chooses every prompt fails, as on a connection that has died; that is why a session ends.

A method and the function that specifies it can share a definition, such as the options a leg agrees to or
the window a bridge runs under. Each such definition is fixed by a lemma that does not name it: in bytes on
the wire, in deadlines, in keys pressed, in what the relays read and wrote, or in the history of a file.

Serving limits are taken as positive, as the configuration check demands
(`internal/config/config.go:385-396`); the predicate `Serving` names them, and only the statements that need
them require it.

## What turned out not to hold

- Two processors facing each other do not stop negotiating an option both accept, because no option state
  is kept: `TelnetLaws.VolleySettlesIffRefused` gives the exact condition.
- The replay rule of RFC 6238 section 5.2 fails for a clock reading 30 to 59 seconds before 1970, where the
  unsigned step counter wraps: `Totp.RuleHoldsIffCounterDoesNotWrap`.
- A file with dangling rows is refused only by an open that ran a ledger step, and accepted by the next one
  with every row still there: `Migration.OrphansRefusedOnce`. Seeding ZZADMIN then makes members of exactly
  the users whose dangling rows name the next free group id: `Migration.SeededGroupAdopts`.
- The last-admin guard counts membership rows, real or dangling. It fails exactly when one real member is
  left, somebody else acts, and a further row of the group dangles:
  `AdminGuard.LockoutIsPossibleExactly`; `AdminGuard.DanglingRowDefeatsGuard` gives the tables. The actor
  there is no longer a member, so only a session opened before its user was taken out of the group gets
  that far.
- A reset of all MFA secrets that dies between its two writes leaves the old sentinel. Of all keys only the
  old one then starts the server; with no key it starts with MFA off: `MfaKeys.InterruptedResetKeepsOldKey`.
- A login that ends is not always audited: there is no logout event exactly when it ended by PF3 at an MFA
  prompt of the gate, verification or forced enrolment: `SessionTrace.ReturnsAreAudited`, with a run that
  shows it in `SessionTrace.CancelledEnrolmentIsNotAudited`.
- After a listener fails, `ServeAll` does not always return by itself: an accept loop queued for a slot is
  not woken, and when the handlers hold every slot it waits for one of them to end:
  `Admission.ServeAllWaitsForHandlersExactly`.

## Model

| member | source | states |
|---|---|---|
| Telnet.TelnetProcessor.Process | internal/bridge/telnet.go:102-181 | The in-place five-state loop computes the byte-by-byte specification from any state, stops at the escape, and never lets the subnegotiation buffer pass 1024 bytes |
| Telnet.ProcessorFollowsGrammar | internal/bridge/telnet.go:102-227 | For every input: what is forwarded is the framing of the records read before the first escape, the replies are exactly the answers to the tokens before it (one per DO or WILL, one IS per fitting terminal-type request, an overrun or aborted one affecting nothing later), and the state is the one the grammar's unfinished token names |
| Telnet.ParseSpells | internal/bridge/telnet.go:102-181 | Every byte stream is the spelling of a well-formed reading |
| Telnet.ReadingIsUnique | internal/bridge/telnet.go:102-181 | A byte stream has exactly one reading |
| Telnet.FeedAppend | internal/bridge/telnet.go:98-102 | Processing a stream in two calls equals processing it in one |
| Telnet.ChunkingIsInvisible | internal/bridge/telnet.go:98-181 | Any cutting into chunks gives the same outputs, final state and escape, up to the first chunk that escapes |
| TelnetLaws.EscapeIsExact | internal/bridge/telnet.go:105-136 | The processor escapes if and only if the AID is a possible one and some record's first data byte is it; the bytes forwarded are then exactly the encoding of all records before the first such record |
| TelnetLaws.EscapeLeavesWholeRecords | internal/bridge/telnet.go:118-136 | What is forwarded before an escape is empty or ends in IAC EOR |
| TelnetLaws.FramedReadsBack | internal/bridge/telnet.go:113-136 | A framed stream of records reads back as those records |
| TelnetLaws.DecodeEncode | internal/bridge/bridge.go:24-30 | Decoding the encoding of any list of records returns the list |
| TelnetLaws.Transparent | internal/bridge/bridge.go:24-30 | Records with any complete negotiations, subnegotiations and commands mixed in are forwarded as exactly their encoding, provided none begins with the escape AID where one is watched for, and only the mixed-in tokens are answered |
| TelnetLaws.FramedPasses | internal/bridge/bridge.go:24-30 | A stream of framed records with no escape passes unchanged, unanswered |
| TelnetLaws.ForwardIsFixedPoint | internal/bridge/bridge.go:24-30 | Whatever one processor forwards, a fresh one with the same AID, or watching for none, forwards unchanged, answering nothing and seeing no escape |
| TelnetLaws.VolleySettlesIffRefused | internal/bridge/telnet.go:184-215 | Two processors answering each other fall silent on an option if and only if one of them refuses it |
| TelnetLaws.AnswerTokenSpells | internal/bridge/telnet.go:198-215 | The messages of that volley are the bytes the processor writes |
| TelnetLaws.NegotiationOnTheWire | internal/bridge/telnet.go:184-215 | Byte for byte, wherever data may stand: DO opt is answered WILL opt exactly for options 0, 3 and 25, and for 24 on the backend leg, otherwise WONT; WILL likewise with DO or DONT; WONT and DONT in silence; nothing of it is forwarded |
| TelnetLaws.SubnegotiationOnTheWire | internal/bridge/telnet.go:150-227 | Any payload between IAC SB and IAC SE is answered exactly when it is 2 to 1024 bytes long and begins 24 1, and then with IAC SB 24 0, the terminal type and IAC SE |
| TelnetLaws.BackendLearnsTerminalType | internal/bridge/telnet.go:184-227 | A backend sending DO 24 and then SB 24 1 is answered WILL 24 and then IS with the terminal type |
| TelnetLaws.EscapeOnTheWire | internal/bridge/telnet.go:105-127 | Right after a record closed by bytes 255 239 a data byte escapes exactly when it is the AID, with everything up to the 239 forwarded as it came; any other is forwarded too |
| Relay.Deliver | internal/bridge/bridge.go:119-133 | The reply goes back before the data goes on, and nothing is written after a refused write |
| Relay.Relay | internal/bridge/bridge.go:114-142 | The destination is offered exactly what the grammar forwards of everything read; an escape is reported only when a record begins with the AID, with exactly the earlier records offered; a close only after a failed read whose bytes were handled too; an error only after a refused write |
| Relay.BackendToClient | internal/bridge/bridge.go:88-92 | The backend direction ends only by the backend's close, after all it sent was offered to the user and all its negotiation answered as a client leg, or by a refused write; never by an escape |
| Relay.ClientToBackend | internal/bridge/bridge.go:93-97 | The client direction ends by an escape, with exactly the records before the first that begins with the AID offered; by the client's close, only if no record does and everything was offered; or by a refused write |
| IdleConn.IdleConnection.Arm | internal/server/idleconn.go:54-68 | Arms the earlier of the sliding window and the ceiling, unless an explicit deadline is set |
| IdleConn.IdleConnection.SetPreAuth | internal/server/idleconn.go:73-78 | New window and a ceiling counted from now; an explicit deadline survives |
| IdleConn.IdleConnection.SetWindow | internal/server/idleconn.go:83-88 | New window, no ceiling |
| IdleConn.IdleConnection.SetDeadline | internal/server/idleconn.go:102-107 | Sets both deadlines and suspends auto-arming; the zero time resumes it |
| IdleConn.IdleConnection.SetReadDeadline | internal/server/idleconn.go:109-114 | The same, for reads alone |
| IdleConn.IdleConnection.SetWriteDeadline | internal/server/idleconn.go:116-121 | The same, for writes alone |
| IdleConn.CeilingHolds | internal/server/idleconn.go:54-78 | No sequence of reads and writes after a fresh pre-auth regime arms a deadline past its ceiling, or past the window of the last operation, or moves the ceiling |
| IdleConn.ExplicitDeadlineHolds | internal/server/idleconn.go:54-107 | An explicit deadline survives every read and write; clearing it brings back the regime before it |
| IdleConn.WindowArmsExactly | internal/server/idleconn.go:54-88 | Under a plain window both deadlines are exactly the window past the last read or write, and none when the window is zero or less |
| IdleConn.PreAuthArmsExactly | internal/server/idleconn.go:54-78 | Under the pre-auth regime they are exactly the earlier of that and the ceiling |
| BridgeRace.StepKeepsInv | internal/bridge/bridge.go:76-108 | One step of either relay or of the supervisor keeps the books of deadlines, results and causes |
| BridgeRace.ReachableInv | internal/bridge/bridge.go:76-108 | They hold in every state any interleaving reaches |
| BridgeRace.InterruptIsNotOverwritten | internal/bridge/bridge.go:100-106 | Between cutting the client's deadline and resetting it, no auto-arm replaces it, and every operation entered is doomed |
| BridgeRace.BridgeReturnsFirstCause | internal/bridge/bridge.go:99-108 | On return both relays have ended, the cause is the first one sent, and the client is back under its regime with no deadline set |
| BridgeRace.CauseIsDecided | internal/bridge/bridge.go:114-142 | In every interleaving a relay's cause follows from what its own reads and writes returned: its own side's close exactly when its last read failed with no escape read, an escape exactly when the client's last chunk held one and its writes went through, an error exactly when a write was refused; it ends when one of these happens and not before |
| BridgeRace.BridgeReturnsDecidedCause | internal/bridge/bridge.go:99-108 | The cause Bridge returns is the one so decided for the relay that was first to hand its cause over |
| BridgeRace.ClientIsArmedByItsUse | internal/bridge/bridge.go:114-142 | Until the interrupt the client's deadlines are those armed by exactly the reads and writes of the client connection: its relay's reads and answers and the other relay's writes |
| BridgeRace.IdleLimitIsExact | internal/server/idleconn.go:54-68 | Until a relay ends, an operation on the client is doomed exactly when a whole window has passed since its last use in either direction; one on the backend never is |
| BridgeRace.TeardownIsBounded | internal/bridge/bridge.go:99-103 | After the interrupt the relays take at most ten more steps between them, whatever the peers do |
| BridgeRace.NeverStuck | internal/bridge/bridge.go:99-108 | Something can always move until Bridge returns; while it waits for the second result a relay can |
| Session.Session.Run | internal/server/session.go:328-531 | From a fresh connection, with any answers from outside: the whole trace is acceptable and complete, and what it holds of the outside is the facts in order, none skipped and none twice |
| Session.RunEndsForCause | internal/server/session.go:328-531 | A run ends only because the last answer ended it: a failed negotiation, store or cipher call, a prompt that broke, a login prompt left or timed out, or a client that closed during a bridge |
| Session.LoginAnswersAreFollowed | internal/server/session.go:717-764 | Credentials entered at the login screen are checked next, under the name typed, with the authenticator's verdict; leaving, idling or breaking off disconnects |
| Session.MfaAnswersAreFollowed | internal/server/session.go:597-711 | A code entered at the gate is validated next; PF3 re-arms the pre-auth regime and returns to the login screen; idling logs out; breaking off disconnects |
| Session.MenuAnswersAreFollowed | internal/server/session.go:423-517 | Quitting and idling at the menu log out; a picked service is bridged to, with the bridger's cause; the admin and settings entries open exactly with the right; anything else shows the menu again |
| Session.SettingsAnswersAreFollowed | internal/server/session.go:823-861 | At the settings menu 1 opens the password form, 2 does with MFA, 3 does with MFA for an account enrolled voluntarily; PF3 goes back to the menu; idling logs out |
| Session.Session.Emit | internal/server/session.go:328-531 | An observation is made only when it is allowed, and only as its fact answers |
| Session.Session.Try | internal/server/session.go:341-349 | A call's success or failure is its fact's; a failure owes the disconnect, or a logout where the code allows a timeout one |
| Session.Session.Greet | internal/server/session.go:328-349 | Regime armed, connect recorded, then terminal negotiation; a failure leaves only the disconnect to come |
| Session.Session.ServeLogins | internal/server/session.go:351-531 | Logins follow one another, each through gate, news and menu, until the connection ends; the user reported to the disconnect event is the trail's principal |
| Session.Session.DoLogin | internal/server/session.go:717-764 | Returns a user only after credentials were accepted and auth_ok recorded under that name; otherwise ends at the login screen with no principal |
| Session.Session.ReportLogin | internal/server/session.go:735-760 | Each verdict's event, under the account's name for auth_ok and the typed one otherwise, with the actor switched before auth_ok is stamped |
| Session.Session.Prompt | internal/server/session.go:423-443 | A prompt's outcome is the presenter's own, PF3 at the menu and a picked service told apart, and a failure once the connection is dead; it is recorded under the regime in force |
| Session.Session.CheckPassword | internal/server/session.go:735-735 | The verdict recorded is the one the authenticator gave for that name; one that needs an event owes it |
| Session.Session.MfaGate | internal/server/session.go:568-590 | Goes on only past the gate, returns to the login screen with the pre-auth regime armed again, or leaves only the disconnect |
| Session.Session.LoadUser | internal/server/session.go:572-589 | A stored secret means verification, a required and unlocked account enrolment, anything else nothing; an unreadable account ends the connection |
| Session.Session.MfaVerify | internal/server/session.go:667-711 | As the gate, for a stored secret; going on means a code was entered, accepted, stored and audited |
| Session.Session.MfaEnroll | internal/server/session.go:641-662 | As the gate, for a forced enrolment, likewise |
| Session.Session.ConfirmEnroll | internal/server/session.go:597-636 | Ends well only with a code entered, accepted, stored and audited; arms no regime itself |
| Session.Session.CheckCode | internal/server/session.go:689-703 | The verdict recorded is the validator's; a refused code is audited and asks again |
| Session.Session.StoreCode | internal/server/session.go:704-709 | Success is audited if and only if the step was stored |
| Session.Session.MaybeShowNews | internal/server/session.go:539-561 | Reads the news once and shows it if there is some; goes on to the menu, back to the login screen after a timeout, or to the disconnect |
| Session.Session.ReadLock | internal/server/session.go:402-407 | The lock is the stored one, and an unreadable account counts as unlocked |
| Session.Session.MenuLoop | internal/server/session.go:410-529 | Leaves the menu only for the login screen, logged out and with the pre-auth regime armed, or for the disconnect; the flows behind it are entered by exactly the rights of this login |
| Session.Session.AskMenu | internal/server/session.go:423-443 | The menu was left by a choice that is now owed, or by PF3 or idling, which owe the logout, or failed |
| Session.Session.Follow | internal/server/session.go:437-529 | Carries out the choice owed and comes back to where the menu can be shown, under the post-auth window |
| Session.Session.AskOption | internal/server/session.go:826-846 | The row chosen is one offered for the account as read just before |
| Session.Session.StoreNewPassword | internal/server/session.go:896-914 | The change is recorded if and only if it was accepted and stored, after the password of this account was accepted; otherwise the form goes on |
| Session.Session.BridgeTo | internal/server/session.go:504-528 | The bridge runs between its two events; a closed client, and only that, leads to the disconnect, anything else back to the menu under the post-auth window |
| Session.Session.AdminFlow | internal/server/session.go:444-475 | Entered only when chosen, with the admin right of this login, and begins with a screen; its events carry the admin as actor |
| Session.Session.UserSettingsMenu | internal/server/session.go:823-862 | Entered only when chosen and unlocked; each row runs its own action; ends at the menu or says how it broke |
| Session.Session.StepUp | internal/server/session.go:925-954 | Ends well only with the current password of the account logged in accepted in this login and no other screen shown since |
| Session.Session.ChangePasswordForm | internal/server/session.go:866-917 | Ends well only with the new password stored and its event recorded, after the current one was accepted in this login |
| Session.Session.SelfMfaEnroll | internal/server/session.go:960-978 | Ends well only with a code accepted and stored, after the current password was accepted in this login |
| Session.Session.SelfMfaDisable | internal/server/session.go:983-1001 | A required account is left alone without a prompt; otherwise it ends well only with the secret removed and its event recorded, after the current password was accepted in this login |
| Session.Session.ArmPreAuth | internal/server/session.go:273-290 | Installs the login regime: none for a trusted client, otherwise window and fresh ceiling |
| Session.Session.ArmPostAuth | internal/server/session.go:293-300 | Installs the plain idle window |
| Session.Session.ArmBridge | internal/server/session.go:304-317 | Installs the bridge's window, or none when exempt |
| Session.Session.LogOff | internal/server/session.go:438-444 | The logout event, then the pre-auth regime |
| Session.Session.Record | internal/server/auditor.go:84-94 | Every event is stamped with the trail's current actor |
| SessionTrace.AcceptableSnoc | internal/server/session.go:328-531 | A trace extended by one allowed observation stays acceptable |
| SessionTrace.ConnectFirstDisconnectLast | internal/server/session.go:331-339 | One connect, before every other event; one disconnect, after them; the disconnect's user is its actor |
| SessionTrace.BridgeEventsPair | internal/server/session.go:504-517 | Every bridge_start, bridge and bridge_end belongs to one group of the three, for the service picked at the menu just before and one user; a client that closed is disconnected next |
| SessionTrace.ActorIsPrincipal | internal/server/auditor.go:79-94 | Every event from an auth_ok to the next return to the login screen has that user as actor, and but for admin changes as subject |
| SessionTrace.OneLogoutPerLogin | internal/server/session.go:425-444 | Between two logouts there is an auth_ok |
| SessionTrace.VerdictsAreAudited | internal/server/session.go:725-760 | Each login is checked under the name typed and its verdict is the next event, auth_ok under the account's name, auth_fail and auth_error under the name typed; each rejected password anywhere is audited at once, and no auth event stands without its verdict |
| SessionTrace.RefusedCodesAreAudited | internal/server/session.go:615-623 | mfa_failed stands right after a refused code, and nowhere else |
| SessionTrace.SuccessNeedsStoredCode | internal/server/session.go:689-709 | mfa_success and mfa_enrolled stand only after a code was entered, accepted and stored |
| SessionTrace.EndingsAreHandled | internal/server/session.go:424-444 | A failed prompt is followed by the disconnect; a timed-out one after login, or PF3 at the menu, by logout, rearming and the login screen; PF3 at the gate's verification or enrolment prompt by rearming and the login screen alone |
| SessionTrace.ReturnsAreAudited | internal/server/session.go:377-447 | Every return to the login screen follows a rearming, and there was a logout in that login if and only if the user did not leave it by PF3 at an MFA prompt |
| SessionTrace.CancelledEnrolmentIsNotAudited | internal/server/session.go:657-660 | On every serving gateway with MFA there is a whole run in which a login ends by PF3 at the forced enrolment prompt without a logout event |
| SessionTrace.EndHasCause | internal/server/session.go:334-339 | The observation before the disconnect is a failed call, a failed prompt, a login prompt left or timed out, or the end of a bridge whose client closed |
| SessionTrace.PromptsRunUnderTheirRegime | internal/server/session.go:273-317 | Every login prompt runs under the regime armed on that return to the login screen; every later prompt under the plain idle window; a bridge under that or none |
| SessionTrace.LoginPromptsEndByCeiling | internal/server/idleconn.go:54-78 | At a login prompt of an untrusted client no sequence of reads and writes arms a deadline past the ceiling counted from that return to the login screen |
| SessionTrace.PromptsArmExactly | internal/server/session.go:273-302 | The deadlines set at a prompt are exactly the idle window past the last read or write; at a login prompt the earlier of the pre-auth window and the ceiling counted from that return, and none for a trusted client |
| SessionTrace.BridgesArmExactly | internal/server/session.go:304-317 | A bridge runs under exactly the idle window with no ceiling, every read and write arming its time plus it, and under none, arming nothing, when exempt |
| SessionTrace.BridgeIsCutByIdlingAlone | internal/server/session.go:304-317 | So in every interleaving of its relays, until one ends by itself, a read or write on the client is cut off exactly when the connection went unused in both directions for the idle time, and never when exempt |
| SessionTrace.MenuNeedsSettledGate | internal/server/session.go:371-423 | News, menu, admin, settings and bridges come only after an auth_ok and a settled MFA step of the same login, itself resting on a code entered, accepted and stored where one was due |
| SessionTrace.AdminAndSettingsAreGated | internal/server/session.go:395-503 | Admin screens and changes need ZZADMIN as of this login's check; settings screens need the account read as unlocked at this login |
| SessionTrace.SelfServiceNeedsPassword | internal/server/session.go:866-1001 | Self-service changes of password or MFA need the password of the account logged in accepted again in this login, nothing but enrolment screens shown since, and are recorded only once stored |
| SessionTrace.NewsAndLockAreReadOnce | internal/server/session.go:383-407 | Before the menu is shown in a login the news has been read exactly once, and the self-service lock exactly once after it |
| SessionTrace.NewsIsShownIffPresent | internal/server/session.go:539-561 | The news is shown if and only if there is some, right after it was read |
| SessionTrace.MenuChoicesAreHonoured | internal/server/session.go:444-503 | Choosing the admin entry opens the admin screens next if and only if this login's check said ZZADMIN and there is an admin presenter; choosing the settings entry loads them next if and only if the lock read at this login was off; otherwise, and for any other answer, the menu is next |
| SessionTrace.AdminIsChosen | internal/server/session.go:445-476 | Admin screens and admin changes come only after that entry was chosen at the menu, with nothing but admin screens since |
| SessionTrace.SettingsAreChosen | internal/server/session.go:477-494 | Settings screens come only after that entry was chosen at the menu, with no other menu or admin screen since |
| SessionTrace.OptionsAreHonoured | internal/server/session.go:836-861 | The number of a row offered for the account just read opens the password form next; any other answer loads the settings again |
| SessionTrace.SelfServiceIsChosen | internal/server/session.go:796-861 | A password change, a cleared secret and a self-service enrolment each carry out the row chosen at the last settings menu, as offered for the account just read; a secret cleared was not a required one |
| SessionTrace.SelfServiceByRow | internal/server/session.go:796-861 | By number: a password change follows row 1, a self-service enrolment row 2 with MFA on, a cleared secret row 3 with MFA on and an account just read as enrolled and not required |
| SessionTrace.RowsOpenForms | internal/server/session.go:836-861 | And exactly those rows open the password form |
| SessionTrace.AcceptedPasswordLeadsOn | internal/server/session.go:866-1001 | Once the current password is accepted, the call of the row chosen is the next thing: judging the new password, generating a secret, or clearing the stored one |
| SessionTrace.FailedCallsAreHandled | internal/server/session.go:341-711 | A failed call disconnects at once, except that a timeout only logs out while storing an enrolment, generating a secret for a form just passed, clearing a secret, or loading the settings |
| Admission.ConnLimiter.TryAcquire | internal/server/limiter.go:61-72 | Takes a slot if and only if one is free |
| Admission.ConnLimiter.TryReleaseGlobal | internal/server/limiter.go:75-80 | Gives one back if and only if one is taken |
| Admission.ConnLimiter.AdmitIP | internal/server/limiter.go:98-113 | Admits exactly below the cap and counts exactly the connections it tracks |
| Admission.ConnLimiter.ReleaseIP | internal/server/limiter.go:117-132 | Uncounts one, dropping the key with the last |
| Admission.StepConserves | internal/server/server.go:79-109 | Every atomic step of any accept loop or handler, one that ends by a panic included, keeps slots taken equal to slots held and each address's counter equal to its live tracked connections |
| Admission.SlotsConserved | internal/server/server.go:79-109 | The same over every run, with any number of loops and handlers |
| Admission.AdmissionIsExact | internal/server/limiter.go:98-113 | After any run a connection just accepted gets a handler if and only if there is no cap, or it is trusted, or its address cannot be read, or fewer untrusted connections than the cap are live from its host |
| Admission.CapsHold | internal/server/limiter.go:61-113 | No host ever has more untrusted connections live than the cap, nor the gateway more than its limit, and a waiting loop can take a slot exactly below that limit |
| Admission.ReleaseNeverBlocks | internal/server/limiter.go:75-80 | Whoever has a slot to give back can give it back at once |
| Admission.QuietIsEmpty | internal/server/limiter.go:36-132 | With no handler and no loop holding a slot all counters are empty, however trust changed on the way |
| Admission.FirstStaysGenuine | internal/server/server.go:226-258 | The error kept is a listener's own, never one its shutdown provoked |
| Admission.FirstErrorStays | internal/server/server.go:226-258 | Once kept, it never changes |
| Admission.FirstErrorWasReported | internal/server/server.go:226-258 | The error kept is one that a listener's Accept reported |
| Admission.ServeAllReportsRootCause | internal/server/server.go:226-258 | When all loops have stopped there is exactly one error to return, and it is the root cause |
| Admission.LoopsBlockExactly | internal/server/server.go:79-97 | In every reachable state: no accept loop can move if and only if each is stopped, or each unfinished one is queued for a slot and the handlers hold them all |
| Admission.QueuedUntilSlotFreed | internal/server/limiter.go:61-72 | While the handlers hold every slot a queued loop stays queued through any steps that free none, listeners closed or not |
| Admission.ServeAllWaitsForHandlersExactly | internal/server/server.go:232-257 | After the first error, in any state in which no loop is just screening a connection, ServeAll can return without any connection ending if and only if some slot is not held by a handler or no loop is queued |
| Throttle.AuthThrottle.Sweep | internal/server/auththrottle.go:106-119 | Drops exactly the entries older than a window, at most once a window |
| Throttle.AuthThrottle.Fail | internal/server/auththrottle.go:66-82 | Sweeps, then counts on from a fresh entry or restarts at one |
| Throttle.AuthThrottle.Reset | internal/server/auththrottle.go:86-94 | Forgets the user |
| Throttle.MapAgreesWithHistory | internal/server/auththrottle.go:66-119 | What the swept map knows of a user is the user's own history of failures |
| Throttle.FailReturnsRunLength | internal/server/auththrottle.go:66-119 | Sweeping is unobservable: a failure returns the length of the user's run since the last reset with no gap above the window |
| Throttle.NamesShareARunExactly | internal/server/auththrottle.go:54-59 | Two user names share a run if and only if they differ at most in letter case and in white space around them |
| Throttle.RetainedEntriesAreYoung | internal/server/auththrottle.go:100-119 | After a failure every entry kept is younger than two windows |
| Throttle.ThrottleDelay | internal/server/auththrottle.go:173-194 | For all int64 operands, without overflow, the delay is base times the capped count, at most an hour, and zero when base, count or cap is not positive |
| Throttle.DelayIsMonotone | internal/server/auththrottle.go:173-194 | More failures never shorten the delay, and it stays within an hour |
| Throttle.DelayGrowsByBase | internal/server/auththrottle.go:173-194 | Each failure adds exactly the base in seconds until the number of tries or the hour is reached, and then nothing |
| Totp.Validate | internal/mfa/totp.go:72-102 | The window search, newest step first, stopping at a match at or below the floor |
| Totp.AcceptsHighestFreshStep | internal/mfa/totp.go:68-102 | Accepts exactly when a step within one of the current matches and exceeds the floor, and returns the highest such step |
| Totp.VerdictIsByCode | internal/mfa/totp.go:72-102 | What is typed is accepted only if, stripped of the white space around it, it is the code of a step within one of the clock's 30 seconds and above the floor, and is refused when none of the three has it |
| Totp.BlanksDoNotMatter | internal/mfa/totp.go:73-73 | Blanks, tabs and line ends around the digits change nothing |
| Totp.WrappedCounterBreaksRule | internal/mfa/totp.go:72-102 | A code generator and code for which the wrapped counter breaks that rule |
| Totp.RuleHoldsIffCounterDoesNotWrap | internal/mfa/totp.go:72-102 | Over int64 clocks the rule holds for every secret, code and floor if and only if the clock does not read 30 to 59 seconds before 1970 |
| Totp.CounterWrapsIff | internal/mfa/totp.go:72-102 | The step counter is 2^64 - 1 exactly for those clocks |
| Totp.StepsNeverRepeat | internal/server/session.go:609-711 | Over any attempts one at a time under one secret, accepted steps strictly increase, the enrolment step first |
| Totp.FreshCodeIsAccepted | internal/server/session.go:609-711 | After any attempts a code of the clock's step or a neighbour is accepted if its step is above all accepted ones and storing does not fail |
| MfaKeys.Database.StoreEnrollment | internal/store/mfa.go:42-46 | Opening what was stored under the sealing key gives the secret back, other users keep theirs, and a key that covered the file still does; it is the history's enrolment step |
| MfaKeys.Database.ClearMfa | internal/store/mfa.go:56-60 | The user has no secret, others keep theirs, and every key that covered the file still does; it is the history's clearing step |
| MfaKeys.Database.ResetAllMfa | internal/store/mfa.go:73-81 | All secrets removed and counted |
| MfaKeys.Database.MfaStartup | cmd/tn3270proxy/mfa.go:44-80 | Refuses without a key when secrets exist, seals a missing sentinel, refuses a key that does not open it |
| MfaKeys.Database.ResetAll | cmd/tn3270proxy/mfa.go:96-132 | Wipes the secrets, then reseals the sentinel; a crash between leaves the old one |
| MfaKeys.KeysAgree | cmd/tn3270proxy/mfa.go:44-132 | Over any history one key covers the sentinel, every stored secret and the running cipher |
| MfaKeys.LoginAlwaysOpensSecret | internal/server/session.go:667-673 | A login on a running server never meets a stored secret it cannot open |
| MfaKeys.StartupRefusesExactly | cmd/tn3270proxy/mfa.go:44-80 | With secrets stored, startup accepts a key if and only if it opens all of them |
| MfaKeys.ResetRecovers | cmd/tn3270proxy/mfa.go:96-132 | A completed reset under a key makes that key start |
| MfaKeys.InterruptedResetKeepsOldKey | cmd/tn3270proxy/mfa.go:96-132 | After an interrupted one, exactly the keys that open the old sentinel start the server, all of them if there was none, and with no key it starts with MFA off |
| MfaKeys.FileFollowsHistory | cmd/tn3270proxy/mfa.go:44-132 | Over any history the sentinel is under the key of the last completed reset, or of the first keyed start before any, and a user has a secret stored exactly if one was enrolled and neither cleared nor wiped since; a reset without a key does nothing |
| MfaKeys.StartsExactly | cmd/tn3270proxy/mfa.go:44-80 | The server starts without a key exactly when nobody is enrolled, and with a key exactly when that key sealed last or none has |
| MfaKeys.LoginGetsSecretEnrolled | internal/server/session.go:667-673 | A login gets back the very secret its user enrolled last |
| AdminGuard.Store.DeleteUserCascade | internal/store/admin.go:228-266 | A user and all its memberships go together or not at all |
| AdminGuard.Store.DeleteGroupCascade | internal/store/admin.go:236-266 | A group, all its memberships and all its service links go together or not at all |
| AdminGuard.Store.GuardLastAdmin | internal/server/admin_users.go:109-125 | Blocks exactly when ZZADMIN has at most one membership row |
| AdminGuard.Store.AdminDeleteUser | internal/server/admin_users.go:87-105 | Deletes exactly when permitted: not oneself, not the last admin |
| AdminGuard.Store.AdminLeave | internal/server/admin_users.go:425-442 | Removes a membership exactly when permitted: in ZZADMIN neither the last nor one's own |
| AdminGuard.Store.AdminDeleteGroup | internal/server/admin_groups.go:71-84 | Deletes exactly the groups whose name is not reserved |
| AdminGuard.Store.AdminAddUser | internal/server/admin_users.go:226-277 | Adds exactly a new non-empty name, in upper case, with a full name of at most 40 bytes, a plausible or empty email, and a non-empty password retyped and at most 72 bytes long; a failure after the insert leaves the user there |
| AdminGuard.ValidateEmail | internal/store/store.go:242-260 | Accepts exactly the empty address and those with one @, text on both sides, a dot after it and no space or tab |
| AdminGuard.AddressesSplit | internal/store/store.go:242-260 | Two sides joined by an @ make a well-formed address exactly when neither is empty, neither holds an @, a space or a tab, and the domain holds a dot; without an @ no non-empty address is |
| AdminGuard.Store.AdminAddGroup | internal/server/admin_groups.go:154-182 | Adds exactly a new non-empty unreserved name, in upper case |
| AdminGuard.AdminNeverLosesMembership | internal/server/admin_users.go:87-125 | Over any commands of one acting admin, failing or not, that admin stays in ZZADMIN, the group stays, names stay canonical and unique, and every counted member is a real user |
| AdminGuard.GuardKeepsOneMember | internal/server/admin_users.go:109-125 | Whoever acts, no permitted command takes ZZADMIN's last membership row |
| AdminGuard.LocksOutExactly | internal/server/admin_users.go:87-125 | Whatever the tables hold, a permitted command takes the last real member if and only if one user is left, somebody else acts, a further row of the group dangles, and the command removes that user or that membership |
| AdminGuard.LockoutIsPossibleExactly | internal/server/admin_users.go:109-125 | An actor has such a command if and only if some other user is the only real member and a row dangles; a real member never has one |
| AdminGuard.DanglingRowDefeatsGuard | internal/server/admin_users.go:109-125 | Tables with one dangling row in which a permitted command leaves ZZADMIN without a real member |
| AdminGuard.RowsChangeExactly | internal/store/admin.go:228-266 | What a permitted command does to every row: a membership appears only by its own Join and goes only by its own Leave or with its user or group, a link goes only with its group, a user or group appears under its upper-case name and goes only by its own deletion |
| AdminGuard.ReservedGroupsAreFixed | internal/server/admin_groups.go:33-37 | Over any commands, whoever acts, no group whose name begins with ZZ in either case is added, deleted or renamed |
| AdminGuard.AddingIsExact | internal/server/admin_groups.go:154-182 | Every other group can be deleted, and added under a name not taken; a user can be added exactly with a full name of at most 40 bytes, a fitting email, a name not taken, and a password of 1 to 72 bytes typed twice |
| Migration.Database.RunOne | internal/store/migrate.go:329-347 | One step and its version stamp, in one commit |
| Migration.Database.RunTo | internal/store/migrate.go:311-319 | The steps up to a version, each once and in order |
| Migration.Database.RunPending | internal/store/migrate.go:311-319 | The pending steps in order, each committed with its stamp, up to wherever the process dies |
| Migration.Database.RunMigrations | internal/store/migrate.go:267-325 | Runs exactly the pending steps in order from a copy of a non-fresh file, and checks references once at the end |
| Migration.Database.ReconcileDefaults | internal/store/migrate.go:366-386 | Adds the missing default rows in order |
| Migration.Database.Open | internal/store/migrate.go:267-386 | A whole open: refusal of a newer file, migrations, defaults |
| Migration.ResumedMigration | internal/store/migrate.go:267-347 | Stopping after any step and resuming equals never stopping |
| Migration.ResumedReconciliation | internal/store/migrate.go:366-386 | The same for the default rows |
| Migration.ReconciliationOnlyAdds | internal/store/migrate.go:366-386 | Adding the defaults is idempotent and changes no existing row |
| Migration.CrashesAreInvisible | internal/store/migrate.go:267-386 | From any supported version and any number of opens that died anywhere, the first that succeeds leaves the file an uninterrupted open leaves, import times apart |
| Migration.LegacyFilesBecomeDocuments | internal/store/migrate.go:172-237 | Upgrading makes MOTD the first 8192 bytes of the file MOTD_FILE names by an absolute path, and BRANDING those of BRANDING_FILE's, leaves each as it was when no such file can be read, and changes no other document, parameter or row |
| Migration.EarlierSteps | internal/store/migrate.go:149-163 | The actor of every audit row of an older file becomes its user name, and of a newer one stays |
| Migration.SchemaIsComplete | internal/store/migrate.go:121-180 | A file upgraded from nothing has every column of every table the gateway reads, and no step takes one away |
| Migration.OpenSeedsDefaults | internal/store/migrate.go:366-386 | After an open that succeeds every default is there, a parameter or document as it was or as a default gives it, and every new row is a default's |
| Migration.NewerIsUntouched | internal/store/migrate.go:272-275 | However many opens went before and died anywhere, an open is refused as newer if and only if the file was newer to begin with, and then none has changed it |
| Migration.OrphansRefusedOnce | internal/store/migrate.go:320-360 | A file with dangling membership or link rows is refused if and only if a step was pending, with its rows unchanged, and the next open succeeds with every row kept |
| Migration.DefaultsAdopt | internal/store/migrate.go:366-371 | The defaults make no membership dangle, and stop one dangling only if its user exists and its group id is above all in use |
| Migration.SeededGroupAdopts | internal/store/migrate.go:366-371 | After seeding a group its members are those it had, or, if no group had that name in any case, also exactly the users whose rows name the next free id |
| Migration.RefusedFileStaysExposed | internal/store/migrate.go:320-360 | A file in which ZZADMIN can lose its last real member is refused once, then opens with that still possible |
| Migration.OrphansExactly | internal/store/migrate.go:349-360 | What the referential check refuses is a membership or a service link that dangles |
| Migration.EachStepOnce | internal/store/migrate.go:267-347 | Over a file's life each step commits once and in order, none after the gateway has used the file |
| Layout.PageIsShown | internal/ui3270/layout.go:105-120 | The page shown starts on a page boundary, is full or last, never empty when there is data, and is the page asked for when that exists |
| Layout.PageTurns | internal/ui3270/layout.go:105-120 | The next page of a full one begins where it ends, the one before ends where it begins, and the same page again begins where it did, whatever the data's length by then |
| Editor.ApplyPrefix | internal/ui3270/editor.go:40-67 | In-place edits, last line first, equal the simultaneous rewrite of all lines by their own commands; an invalid command vetoes all; the result is never empty |
| Editor.TypeText | internal/ui3270/editor.go:110-116 | Typed text replaces exactly the lines shown that are at most 76 wide |
| Editor.Transmit | internal/ui3270/editor.go:110-124 | Typing first, then the simultaneous rewrite at the document's own indices |
| Editor.RunEditor | internal/ui3270/editor.go:87-150 | Turn i carries out the script's i-th action, on the page its keys so far lead to, as one edit of the document; Save is offered exactly the current lines on an error-free PF3, and its answer, PF12 or a dead connection ends the run |
| Editor.DocumentIsFold | internal/ui3270/editor.go:87-150 | After any number of turns the document and page are the fold of the actions so far |
| Editor.RunIsDetermined | internal/ui3270/editor.go:87-150 | A script has one run: two that meet the contract are equal, turn by turn and in how they end |
| Editor.OneCommand | internal/ui3270/editor.go:40-67 | I opens a blank line below its line, R repeats it, D removes it but never the last one; an unknown command or one for no line changes nothing |
| Editor.CommandHitsItsLine | internal/ui3270/editor.go:118-124 | A command typed beside a row shown is carried out on the document's line there |
| Editor.TypingAlone | internal/ui3270/editor.go:110-116 | Without commands exactly the lines typed over that are at most 76 wide change |
| Editor.KeysPage | internal/ui3270/editor.go:126-148 | PF8 shows what follows the page, PF7 what precedes it, any other key the same place |
| Editor.LastKeyEnds | internal/ui3270/editor.go:126-143 | PF12 cancels and PF3 without a bad command commits or fails as Save says; any other end is a dead connection, and no earlier transmission ended the editor |
| ListDriver.RunList | internal/ui3270/list.go:27-121 | Turn i shows the script's i-th fetch on the page its keys so far lead to and carries out its i-th keys; a dead connection, a fatal handler or PF3 with nothing armed ends the run; the trace of those turns is gated |
| ListDriver.RunIsGated | internal/ui3270/list.go:27-121 | Over every script a gated command commits exactly on a plain Enter at the first good screen after its arming, on the item armed, and an arming names an item on the page shown that the confirm did not veto |
| ListDriver.OncePerArming | internal/ui3270/list.go:27-121 | Two gated commits have two armings |
| ListDriver.KeysAreCarriedOut | internal/ui3270/list.go:57-119 | Both ways: a plain Enter commits what is armed; a command typed on a row commits if it asks for no confirmation and is armed if it does and does not veto the item; PF4 adds where offered; nothing else happens |
| ListDriver.KeysPage | internal/ui3270/list.go:27-121 | Over unchanged rows PF8 shows the rows after the page, PF7 those before it, any other key the same place |
| ListDriver.LastKeyEnds | internal/ui3270/list.go:57-119 | The list is left by PF3 with nothing armed, by a fatal handler or by a dead connection, and by nothing earlier |
| ListDriver.RunDetail | internal/ui3270/detail.go:31-72 | The presses are the script's, up to PF3 or a dead connection; the action runs at most once, only on two consecutive presses with the first not vetoed, and its refresh flag is returned |
| ListDriver.ActsExactly | internal/ui3270/detail.go:31-72 | The action runs on a press exactly when that press and the one before are of its key, the first was not vetoed, and it has not run before; its refresh flag is the one it asked for |
| WrapText.Wrap | internal/ui3270/snapshotscreen.go:108-142 | The loop computes the greedy layout |
| WrapText.FieldsKeepText | internal/ui3270/snapshotscreen.go:115-117 | Splitting into words loses only white space |
| WrapText.WrapFitsAndKeepsText | internal/ui3270/snapshotscreen.go:108-142 | Every line is non-empty and fits, and the non-space characters come out in order, none lost or added |
| WrapText.WordsStayApart | internal/ui3270/snapshotscreen.go:108-142 | Every line is a group of words with single spaces between them, and the groups in order are the words of the text, those longer than the width cut: no two words run together and none that fits is broken |
| WrapText.CutKeepsWord | internal/ui3270/snapshotscreen.go:123-130 | The pieces of a cut word fit, and together are the word |
| WrapText.WrapIsMinimal | internal/ui3270/snapshotscreen.go:108-142 | When every word fits no breaking of the same words into fitting lines uses fewer lines |
| Text.UpperIdempotent | internal/store/store.go:88-105 | A stored name is its own canonical form |
| Text.TrimSpaceStrips | internal/mfa/totp.go:73-73 | Trimming takes away the white space on both sides and nothing else: its result is the only string of which that is true |

## Left out

- Sockets, TLS, go3270 screens, colours and help text: reads, writes, accepts and prompts are answers from outside.
- BridgeRace.TeardownIsBounded: takes it that an operation entered after its deadline fails; a TLS connection holding decrypted bytes may return those first.
- Relay.Relay: works on one thread; how the two directions interleave is `BridgeRace`, which has no bytes.
- Session.Session.AdminFlow: the admin screens are a run of prompts and events chosen from outside; the guards behind them are `AdminGuard`.
- Session.Session.CheckCode: the code's verdict is an answer from outside; the validator and the replay floor are `Totp`, key agreement is `MfaKeys`.
- Session.Session.ChangePasswordForm: the checks of the new password and its storing are one answer from outside.
- SessionTrace.ReturnsAreAudited: a login that ends by the disconnect is audited by the disconnect alone, as in the code.
- Admission.ServeAllWaitsForHandlersExactly: while a loop is screening a connection the answer depends on whether that connection is admitted; such states are left out.
- The backoff slept after a failed attempt, the throttle's settings, the logger, branding, help and news paging inside a session.
- The live-session registry; its service stays set when a client closes during a bridge.
- A limiter, throttle or audit trail that is nil, and the unlimited mode of the limiter.
- Totp.StepsNeverRepeat: logins of one user at a time; two at once could both pass the same floor.
- AdminGuard.AdminNeverLosesMembership: one acting admin at a time; other fields of users and groups, and the editing of services and links, are not modelled.
- Totp.WrappedCounterBreaksRule: the generator is any function of the step; that some RFC 6238 secret behaves so is not shown.
- MfaKeys.KeysAgree: the reset runs with no server running; one under a running server is not modelled.
- Throttle.FailReturnsRunLength: one fixed positive window and times that never go backwards; the counter's own int range is not modelled.
- Migration.CrashesAreInvisible: legacy files unchanged between attempts; SQL text, write-ahead logging and failures to write the backup are not modelled.
- Other columns of users, groups and services are not modelled.
- Text.UpperIdempotent: upper-casing covers ASCII letters only.
- Hashing, AES-GCM, HOTP code generation and randomness: abstract, an opening succeeding only under the sealing key.
- RunSnapshotList: its page variable is shadowed, so its paging keys have no effect; not modelled.
- Flag and file configuration, certificates, quickstart, reverse DNS and versions: plumbing.
