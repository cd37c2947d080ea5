/** The master-key protocol: which key sealed the stored secrets, and the sentinel that detects a
    wrong one at startup (cmd/tn3270proxy/mfa.go, internal/store/mfa.go; sealing in
    internal/mfa/cipher.go). Sealing is modelled by remembering the key: opening succeeds exactly
    under the key that sealed. One process uses the database at a time. */
module MfaKeys {
  import opened Prelude

  /** A key is its identity; no key configured is `None`. */
  type Key = nat

  datatype Sealed = Sealed(key: Key, plaintext: string)

  predicate Opens(c: Sealed, k: Key) { c.key == k }

  /** What opening gives; nothing under any other key. */
  function Opened(c: Sealed, k: Key): Option<string> { if Opens(c, k) then Some(c.plaintext) else None }

  const SENTINEL_TEXT := "tn3270proxy-mfa-key-check-v1"

  /** What survives a restart: each enrolled user's sealed secret and the sentinel. */
  datatype Disk = Disk(secrets: map<nat, Sealed>, sentinel: Option<Sealed>)

  /** The key opens the sentinel and every stored secret. */
  predicate CoveredBy(d: Disk, k: Key) {
    && d.sentinel.Some? && Opens(d.sentinel.value, k)
    && forall u :: u in d.secrets ==> Opens(d.secrets[u], k)
  }

  datatype Startup = NoCipher | WithCipher(key: Key) | RefusedNoKey | RefusedWrongKey

  function StartupOutcome(d: Disk, key: Option<Key>): Startup {
    if key.None? then (if d.secrets != map[] then RefusedNoKey else NoCipher)
    else if d.sentinel.None? || Opens(d.sentinel.value, key.value) then WithCipher(key.value)
    else RefusedWrongKey
  }

  function StartupDisk(d: Disk, key: Option<Key>): Disk {
    if key.Some? && d.sentinel.None? then d.(sentinel := Some(Sealed(key.value, SENTINEL_TEXT))) else d
  }

  class Database {
    var secrets: map<nat, Sealed>
    var sentinel: Option<Sealed>

    function Snapshot(): Disk
      reads this
    {
      Disk(secrets, sentinel)
    }

    /** Seals under the running cipher and stores: opening under it gives the secret back, and if that
        key covered the file before, it still does. */
    method StoreEnrollment(user: nat, secret: string, key: Key)
      modifies this`secrets
      ensures user in secrets && Opened(secrets[user], key) == Some(secret)
      ensures forall u :: u != user ==> (u in secrets <==> u in old(secrets))
      ensures forall u :: u != user && u in secrets ==> secrets[u] == old(secrets)[u]
      ensures CoveredBy(old(Snapshot()), key) ==> CoveredBy(Snapshot(), key)
      ensures Snapshot() == Apply(System(old(Snapshot()), Some(WithCipher(key))), Enroll(user, secret)).disk
    {
      secrets := secrets[user := Sealed(key, secret)];
    }

    /** One user's secret goes; whatever key opened the others still does. */
    method ClearMfa(user: nat)
      modifies this`secrets
      ensures user !in secrets
      ensures forall u :: u != user ==> (u in secrets <==> u in old(secrets))
      ensures forall u :: u in secrets ==> secrets[u] == old(secrets)[u]
      ensures forall key :: CoveredBy(old(Snapshot()), key) ==> CoveredBy(Snapshot(), key)
      ensures forall server :: Snapshot() == Apply(System(old(Snapshot()), Some(server)), Clear(user)).disk
    {
      secrets := secrets - {user};
    }

    method ResetAllMfa() returns (n: nat)
      modifies this`secrets
      ensures secrets == map[] && n == |old(secrets)|
    {
      n := |secrets|;
      secrets := map[];
    }

    method SetSentinel(sealed: Sealed)
      modifies this`sentinel
      ensures sentinel == Some(sealed)
    {
      sentinel := Some(sealed);
    }

    /** The fail-closed startup check. */
    method MfaStartup(key: Option<Key>) returns (r: Startup)
      modifies this`sentinel
      ensures r == StartupOutcome(old(Snapshot()), key)
      ensures Snapshot() == StartupDisk(old(Snapshot()), key)
    {
      var enrolled := |secrets|;
      if key.None? {
        if enrolled > 0 { return RefusedNoKey; }
        return NoCipher;
      }
      if sentinel.None? {
        SetSentinel(Sealed(key.value, SENTINEL_TEXT));
        return WithCipher(key.value);
      }
      if !Opens(sentinel.value, key.value) { return RefusedWrongKey; }
      return WithCipher(key.value);
    }

    /** The offline reset; `crashes` when the process dies between its two writes. */
    method ResetAll(key: Option<Key>, crashes: bool)
      modifies this
      ensures Snapshot() == ResetDisk(old(Snapshot()), key, crashes)
    {
      if key.None? { return; }
      var n := ResetAllMfa();
      if crashes { return; }
      SetSentinel(Sealed(key.value, SENTINEL_TEXT));
    }
  }

  function ResetDisk(d: Disk, key: Option<Key>, crashes: bool): Disk {
    if key.None? then d
    else Disk(map[], if crashes then d.sentinel else Some(Sealed(key.value, SENTINEL_TEXT)))
  }

  // ---------------------------------------------------------------- histories

  /** The database and the cipher of the server using it, if one is running. */
  datatype System = System(disk: Disk, server: Option<Startup>)

  datatype Event =
    | Start(key: Option<Key>)                      // serve; replaces a stopped server
    | Stop                                         // exit or crash
    | Enroll(user: nat, secret: string)            // confirmed code under the running cipher
    | Clear(user: nat)                             // admin wipe, self-service disable or user deletion
    | Reset(key: Option<Key>, crashes: bool)       // mfa reset-all with no server running

  predicate Possible(s: System, e: Event) {
    match e
    case Start(_) => s.server.None?
    case Stop => s.server.Some?
    case Enroll(_, _) => s.server.Some? && s.server.value.WithCipher?
    case Clear(_) => s.server.Some?
    case Reset(_, _) => s.server.None?
  }

  function Apply(s: System, e: Event): System
    requires Possible(s, e)
  {
    match e
    case Start(key) =>
      var r := StartupOutcome(s.disk, key);
      System(StartupDisk(s.disk, key), if r.NoCipher? || r.WithCipher? then Some(r) else None)
    case Stop => s.(server := None)
    case Enroll(user, secret) =>
      s.(disk := s.disk.(secrets := s.disk.secrets[user := Sealed(s.server.value.key, secret)]))
    case Clear(user) => s.(disk := s.disk.(secrets := s.disk.secrets - {user}))
    case Reset(key, crashes) => s.(disk := ResetDisk(s.disk, key, crashes))
  }

  predicate History(es: seq<Event>)
    decreases |es|, 0
  {
    es == [] || (History(es[..|es| - 1]) && Possible(After(es[..|es| - 1]), es[|es| - 1]))
  }

  function After(es: seq<Event>): System
    requires History(es)
    decreases |es|, 1
  {
    if es == [] then System(Disk(map[], None), None) else Apply(After(es[..|es| - 1]), es[|es| - 1])
  }

  /** One key covers everything: the sentinel, every secret, and the running cipher. */
  predicate Agree(s: System) {
    && (s.disk.secrets != map[] ==> s.disk.sentinel.Some?)
    && (forall u :: u in s.disk.secrets ==> Opens(s.disk.secrets[u], s.disk.sentinel.value.key))
    && (s.server.Some? && s.server.value.WithCipher? ==>
          s.disk.sentinel.Some? && Opens(s.disk.sentinel.value, s.server.value.key))
    && (s.server.Some? && s.server.value.NoCipher? ==> s.disk.secrets == map[])
    && (s.server.Some? ==> s.server.value.NoCipher? || s.server.value.WithCipher?)
  }

  lemma {:induction false} KeysAgree(es: seq<Event>)
    requires History(es)
    ensures Agree(After(es))
  {
    if es != [] {
      KeysAgree(es[..|es| - 1]);
      ApplyAgrees(After(es[..|es| - 1]), es[|es| - 1]);
    }
  }

  lemma ApplyAgrees(s: System, e: Event)
    requires Agree(s) && Possible(s, e)
    ensures Agree(Apply(s, e))
  {
    match e {
      case Clear(user) =>
        var t := Apply(s, e);
        if t.disk.secrets != map[] {
          var u :| u in t.disk.secrets;
          assert u in s.disk.secrets;
        }
      case _ =>
    }
  }

  /** Over any history, a crash between the reset's two writes included: while a server runs with a
      cipher every stored secret opens under it, and a server without a cipher has none to open. */
  lemma LoginAlwaysOpensSecret(es: seq<Event>, user: nat)
    requires History(es)
    requires After(es).server.Some? && user in After(es).disk.secrets
    ensures After(es).server.value.WithCipher?
    ensures Opens(After(es).disk.secrets[user], After(es).server.value.key)
  {
    KeysAgree(es);
  }

  /** Startup never refuses a key that would work: with secrets stored it starts exactly when the
      configured key opens all of them. */
  lemma StartupRefusesExactly(es: seq<Event>, key: Option<Key>)
    requires History(es) && After(es).disk.secrets != map[]
    ensures var d := After(es).disk;
            StartupOutcome(d, key).WithCipher? <==>
            key.Some? && forall u :: u in d.secrets ==> Opens(d.secrets[u], key.value)
  {
    KeysAgree(es);
    var d := After(es).disk;
    var u :| u in d.secrets;
  }

  /** A wrong key can always be recovered from: a completed reset under a key makes that key start. */
  lemma ResetRecovers(es: seq<Event>, key: Key)
    requires History(es) && After(es).server.None?
    ensures var r := es + [Reset(Some(key), false)];
            History(r) && StartupOutcome(After(r).disk, Some(key)) == WithCipher(key)
  {
    assert (es + [Reset(Some(key), false)])[..|es|] == es;
  }

  /** A reset that dies after the wipe leaves the old sentinel, if there was one. The keys that then start
      the server are exactly those that open it, whatever key the reset was for; with no key it starts
      with MFA off, for no secret is left. */
  lemma InterruptedResetKeepsOldKey(es: seq<Event>, key: Key, k: Key)
    requires History(es) && After(es).server.None?
    ensures var sentinel := After(es).disk.sentinel;
            var r := es + [Reset(Some(key), true)];
            && History(r)
            && StartupOutcome(After(r).disk, Some(k)) ==
               (if sentinel.None? || Opens(sentinel.value, k) then WithCipher(k) else RefusedWrongKey)
            && StartupOutcome(After(r).disk, None) == NoCipher
  {
    assert (es + [Reset(Some(key), true)])[..|es|] == es;
  }

  // ---------------------------------------------------------------- what the file holds, by its history

  /** The key that last sealed the sentinel: that of the last completed reset, or of the first start with a
      key before any. A reset without a key does nothing. */
  function SealedBy(es: seq<Event>): Option<Key> {
    if es == [] then None
    else
      var k := SealedBy(es[..|es| - 1]);
      match es[|es| - 1]
      case Reset(Some(key), false) => Some(key)
      case Start(Some(key)) => if k.None? then Some(key) else k
      case _ => k
  }

  /** The secret the user enrolled last, unless it was cleared or a reset has wiped it since. */
  function SecretOf(es: seq<Event>, user: nat): Option<string> {
    if es == [] then None
    else
      var before := SecretOf(es[..|es| - 1], user);
      match es[|es| - 1]
      case Enroll(u, secret) => if u == user then Some(secret) else before
      case Clear(u) => if u == user then None else before
      case Reset(Some(_), _) => None
      case _ => before
  }

  /** Over every history the sentinel is under that key, and exactly those users have a secret stored. */
  lemma {:induction false} FileFollowsHistory(es: seq<Event>, user: nat)
    requires History(es)
    ensures var d := After(es).disk;
            && (d.sentinel.None? <==> SealedBy(es).None?)
            && (d.sentinel.Some? ==> Opens(d.sentinel.value, SealedBy(es).value))
            && (user in d.secrets <==> SecretOf(es, user).Some?)
            && (user in d.secrets ==> d.secrets[user].plaintext == SecretOf(es, user).value)
  {
    if es != [] { FileFollowsHistory(es[..|es| - 1], user); }
  }

  ghost predicate NobodyEnrolled(es: seq<Event>) { forall u: nat :: SecretOf(es, u).None? }

  lemma SecretsAreTheEnrolled(es: seq<Event>)
    requires History(es)
    ensures After(es).disk.secrets == map[] <==> NobodyEnrolled(es)
  {
    var secrets := After(es).disk.secrets;
    forall u: nat ensures u in secrets <==> SecretOf(es, u).Some? { FileFollowsHistory(es, u); }
    if secrets != map[] {
      var u: nat :| u in secrets;
      assert SecretOf(es, u).Some?;
    }
  }

  /** When the server starts: without a key exactly when no user has a secret, and then with MFA off; with a
      key exactly when that key sealed the sentinel last or none has been sealed. */
  lemma StartsExactly(es: seq<Event>, key: Option<Key>)
    requires History(es) && After(es).server.None?
    ensures History(es + [Start(key)])
    ensures After(es + [Start(key)]).server ==
            if key.None? then (if NobodyEnrolled(es) then Some(NoCipher) else None)
            else if SealedBy(es) in {None, key} then Some(WithCipher(key.value))
            else None
  {
    assert (es + [Start(key)])[..|es|] == es;
    FileFollowsHistory(es, 0);
    SecretsAreTheEnrolled(es);
  }

  /** On a running server every user with a secret has it opened as enrolled. */
  lemma LoginGetsSecretEnrolled(es: seq<Event>, user: nat)
    requires History(es) && After(es).server.Some? && SecretOf(es, user).Some?
    ensures var s := After(es);
            && s.server.value.WithCipher? && user in s.disk.secrets
            && Opened(s.disk.secrets[user], s.server.value.key) == SecretOf(es, user)
  {
    FileFollowsHistory(es, user);
    LoginAlwaysOpensSecret(es, user);
  }
}
