/** Safety of root-key rotation over every run of start, re-encrypt, finalize and secret writes. */
module RootKeyTheorems {
  import opened Prelude
  import opened RootKeys

  /** The two tables and the machine they are read on. */
  datatype World = World(db: Db, host: Host)

  // ---------------------------------------------------------------------------------------------
  // Runs
  // ---------------------------------------------------------------------------------------------

  datatype Op =
    | StartOp(newKey: Key, newKeyRef: string, now: int)
    | ReencryptOp(nonces: string -> int, now: int)
    | FinalizeOp(finalizeNow: bool, now: int)
    | StoreOp(id: string, purpose: string, plaintext: string, nonce: int)
    | SwitchOp(key: Key)   // the operator configures a key, any key, as CREWDAY_ROOT_KEY

  function OrSame(r: Result<Db, RotationError>, db: Db): Db {
    if r.Ok? then r.value else db
  }

  function Switched(host: Host, key: Key): Host {
    host.(rootKey := Some(key), resolve := (r: string) => if r == ENV_ROOT_KEY_REF then Some(key) else host.resolve(r))
  }

  /** One unit of work; an operation that raises changes nothing, and ids are never reused. */
  function Apply(w: World, op: Op): World
    requires AtMostOneActive(w.db.slots)
  {
    var db, host := w.db, w.host;
    match op
    case StartOp(key, keyRef, now) => World(OrSame(Start(db, host, key, keyRef, now), db), host)
    case ReencryptOp(nonces, now) => World(OrSame(Reencrypt(db, host, nonces, now), db), host)
    case FinalizeOp(finalizeNow, now) => World(OrSame(Finalize(db, host, finalizeNow, now), db), host)
    case StoreOp(id, purpose, plaintext, nonce) =>
      if id in db.envelopes || host.rootKey.None? then w
      else World(db.(envelopes := db.envelopes[id := Stored(host, host.rootKey.value, purpose, plaintext, nonce)]), host)
    case SwitchOp(key) => World(db, Switched(host, key))
  }

  /** Two active slots never coexist, whatever the operations and whatever the references resolve to. */
  lemma OneActiveKept(w: World, op: Op)
    requires AtMostOneActive(w.db.slots)
    ensures AtMostOneActive(Apply(w, op).db.slots)
  {
  }

  function After(host: Host, ops: seq<Op>): (w: World)
    ensures AtMostOneActive(w.db.slots)
  {
    if ops == [] then World(Db(map[], map[]), host)
    else
      var w := After(host, ops[..|ops| - 1]);
      OneActiveKept(w, ops[|ops| - 1]);
      Apply(w, ops[|ops| - 1])
  }

  /** The plaintext each secret was first stored with. */
  function Originals(ops: seq<Op>): map<string, string> {
    if ops == [] then map[]
    else Noted(Originals(ops[..|ops| - 1]), ops[|ops| - 1])
  }

  function Noted(originals: map<string, string>, op: Op): map<string, string> {
    if op.StoreOp? && op.id !in originals then originals[op.id := op.plaintext] else originals
  }

  // ---------------------------------------------------------------------------------------------
  // Start and finalize, in every state
  // ---------------------------------------------------------------------------------------------

  /** A start that succeeds leaves exactly one active slot, the new one, and never loses a slot. */
  lemma StartActivatesOne(db: Db, host: Host, newKey: Key, newKeyRef: string, now: int)
    requires Start(db, host, newKey, newKeyRef, now).Ok?
    ensures var after := Start(db, host, newKey, newKeyRef, now).value;
      && Active(after.slots) == {host.fingerprint(newKey)}
      && after.slots.Keys == db.slots.Keys + {host.fingerprint(newKey), host.fingerprint(host.rootKey.value)}
      && after.envelopes == db.envelopes
  {
  }

  /** Finalizing deletes retired slots only, and none that an envelope is stamped with. */
  lemma FinalizeKeepsUsedSlots(db: Db, host: Host, finalizeNow: bool, now: int, f: Fingerprint)
    requires AtMostOneActive(db.slots) && Finalize(db, host, finalizeNow, now).Ok? && f in db.slots
    ensures var after := Finalize(db, host, finalizeNow, now).value;
      && after.envelopes == db.envelopes
      && (f in after.slots ==> after.slots[f] == db.slots[f])
      && (f !in after.slots ==> !db.slots[f].isActive && !Pending(db.envelopes, f))
  {
  }

  // ---------------------------------------------------------------------------------------------
  // Which secrets the host can read
  // ---------------------------------------------------------------------------------------------

  ghost predicate NoCollisions(host: Host) {
    forall k, l :: host.fingerprint(k) == host.fingerprint(l) ==> k == l
  }

  /** A service process reads the row: it holds the configured key and nothing else. */
  predicate ServiceReads(db: Db, host: Host, row: Envelope, plaintext: string) {
    host.rootKey.Some? && CipherOpen(db.slots, host, host.rootKey.value, row) == Some(plaintext)
  }

  /** A service on the configured key reads the row, or one on the active key would. */
  predicate Recoverable(db: Db, host: Host, row: Envelope, plaintext: string)
    requires AtMostOneActive(db.slots)
  {
    || ServiceReads(db, host, row, plaintext)
    || (ActiveRootKey(db.slots, host).Ok?
        && CipherOpen(db.slots, host, ActiveRootKey(db.slots, host).value, row) == Some(plaintext))
  }

  predicate AllRecoverable(w: World, originals: map<string, string>)
    requires AtMostOneActive(w.db.slots)
  {
    && w.db.envelopes.Keys == originals.Keys
    && forall id :: id in originals ==> Recoverable(w.db, w.host, w.db.envelopes[id], originals[id])
  }

  predicate AllServed(w: World, originals: map<string, string>) {
    && w.db.envelopes.Keys == originals.Keys
    && forall id :: id in originals ==> ServiceReads(w.db, w.host, w.db.envelopes[id], originals[id])
  }

  /** The slot's reference resolves to the key the slot is named after. */
  predicate ResolvesToOwnKey(slots: Slots, host: Host, f: Fingerprint) {
    f in slots && host.resolve(slots[f].keyRef).Some? && host.fingerprint(host.resolve(slots[f].keyRef).value) == f
  }

  /** The configured key is present and is what its environment reference resolves to. */
  ghost predicate Configured(host: Host) {
    NoCollisions(host) && host.rootKey.Some? && host.resolve(ENV_ROOT_KEY_REF) == host.rootKey
  }

  function RootFp(host: Host): Fingerprint
    requires host.rootKey.Some?
  {
    host.fingerprint(host.rootKey.value)
  }

  predicate KeyIsHeld(db: Db, host: Host, f: Fingerprint)
    requires host.rootKey.Some?
  {
    RootFp(host) == f || ResolvesToOwnKey(db.slots, host, f)
  }

  /** A row as the cipher and the re-encryption write it, holding the given plaintext. */
  predicate SealedAs(host: Host, row: Envelope, plaintext: string) {
    && row.keyFp == host.fingerprint(row.ciphertext.key)
    && row.ciphertext == Sealed(row.ciphertext.key, row.purpose, row.nonce, plaintext)
  }

  /** Every row holds its original plaintext under a key the machine still holds. */
  ghost predicate RowsHeld(db: Db, host: Host, originals: map<string, string>)
    requires host.rootKey.Some?
  {
    && db.envelopes.Keys == originals.Keys
    && forall id :: id in originals ==>
         SealedAs(host, db.envelopes[id], originals[id]) && KeyIsHeld(db, host, db.envelopes[id].keyFp)
  }

  ghost predicate SlotsGood(slots: Slots, host: Host)
    requires host.rootKey.Some?
  {
    && AtMostOneActive(slots)
    && (forall f :: f in Active(slots) ==> ResolvesToOwnKey(slots, host, f))
  }

  /** What guarded operations keep. */
  ghost predicate Good(w: World, originals: map<string, string>) {
    Configured(w.host) && SlotsGood(w.db.slots, w.host) && RowsHeld(w.db, w.host, originals)
  }

  lemma ActiveKeyIsOwn(slots: Slots, host: Host)
    requires Configured(host) && SlotsGood(slots, host)
    ensures ActiveRootKey(slots, host).Ok?
    ensures var fp := host.fingerprint(ActiveRootKey(slots, host).value);
      if Active(slots) == {} then fp == RootFp(host) else Active(slots) == {fp}
  {
    if Active(slots) != {} {
      var f :| f in Active(slots);
      assert ResolvesToOwnKey(slots, host, f);
      assert Active(slots) == {f};
    }
  }

  lemma HeldKeyReads(db: Db, host: Host, row: Envelope, plaintext: string)
    requires Configured(host) && SlotsGood(db.slots, host) && SealedAs(host, row, plaintext) && KeyIsHeld(db, host, row.keyFp)
    ensures Recoverable(db, host, row, plaintext)
  {
    ActiveKeyIsOwn(db.slots, host);
    var f := row.keyFp;
    if f != RootFp(host) && db.slots[f].isActive {
      assert f in Active(db.slots);
    }
  }

  lemma GoodIsRecoverable(w: World, originals: map<string, string>)
    requires Good(w, originals)
    ensures AllRecoverable(w, originals)
  {
    forall id | id in originals ensures Recoverable(w.db, w.host, w.db.envelopes[id], originals[id]) {
      HeldKeyReads(w.db, w.host, w.db.envelopes[id], originals[id]);
    }
  }

  /** In a good state the service reads exactly the rows under its own key or under a slot that is not active. */
  lemma ServiceReadsIff(w: World, originals: map<string, string>, id: string)
    requires Good(w, originals) && id in originals
    ensures ServiceReads(w.db, w.host, w.db.envelopes[id], originals[id])
       <==> w.db.envelopes[id].keyFp == RootFp(w.host) || w.db.envelopes[id].keyFp !in Active(w.db.slots)
  {
    assert SealedAs(w.host, w.db.envelopes[id], originals[id]) && KeyIsHeld(w.db, w.host, w.db.envelopes[id].keyFp);
  }

  lemma AllServedIff(w: World, originals: map<string, string>)
    requires Good(w, originals)
    ensures AllServed(w, originals)
       <==> forall f :: f in Active(w.db.slots) ==> f == RootFp(w.host) || !Pending(w.db.envelopes, f)
  {
    forall id | id in originals {
      ServiceReadsIff(w, originals, id);
    }
    if AllServed(w, originals) {
      forall f | f in Active(w.db.slots) && Pending(w.db.envelopes, f) ensures f == RootFp(w.host) {
        var id :| id in w.db.envelopes && w.db.envelopes[id].keyFp == f;
        ServiceReadsIff(w, originals, id);
      }
    } else {
      var id :| id in originals && !ServiceReads(w.db, w.host, w.db.envelopes[id], originals[id]);
      ServiceReadsIff(w, originals, id);
      assert Pending(w.db.envelopes, w.db.envelopes[id].keyFp);
    }
  }

  // ---------------------------------------------------------------------------------------------
  // Start: the exact condition
  // ---------------------------------------------------------------------------------------------

  lemma StartKeepsGood(w: World, originals: map<string, string>, newKey: Key, newKeyRef: string, now: int)
    requires Good(w, originals) && w.host.resolve(newKeyRef) == Some(newKey)
    requires Start(w.db, w.host, newKey, newKeyRef, now).Ok?
    ensures Good(w.(db := Start(w.db, w.host, newKey, newKeyRef, now).value), originals)
  {
    var after := Start(w.db, w.host, newKey, newKeyRef, now).value;
    StartActivatesOne(w.db, w.host, newKey, newKeyRef, now);
    forall id | id in originals ensures KeyIsHeld(after, w.host, w.db.envelopes[id].keyFp) {
      assert KeyIsHeld(w.db, w.host, w.db.envelopes[id].keyFp);
    }
  }

  /**
   A start keeps every secret readable exactly when the new reference resolves to the new key or no
   row is stamped with the new key yet: registering a key again under a reference that resolves to
   something else, as standard input does while the old key is configured, cuts its rows off.
   */
  lemma StartKeepsSecretsIff(w: World, originals: map<string, string>, newKey: Key, newKeyRef: string, now: int)
    requires Good(w, originals) && Start(w.db, w.host, newKey, newKeyRef, now).Ok?
    ensures AtMostOneActive(Start(w.db, w.host, newKey, newKeyRef, now).value.slots)
    ensures AllRecoverable(w.(db := Start(w.db, w.host, newKey, newKeyRef, now).value), originals)
       <==> w.host.resolve(newKeyRef) == Some(newKey) || !Pending(w.db.envelopes, w.host.fingerprint(newKey))
  {
    var host, newFp := w.host, w.host.fingerprint(newKey);
    var after := Start(w.db, host, newKey, newKeyRef, now).value;
    StartActivatesOne(w.db, host, newKey, newKeyRef, now);
    if host.resolve(newKeyRef) == Some(newKey) {
      StartKeepsGood(w, originals, newKey, newKeyRef, now);
      GoodIsRecoverable(w.(db := after), originals);
    } else {
      forall id | id in originals
        ensures Recoverable(after, host, w.db.envelopes[id], originals[id]) <==> w.db.envelopes[id].keyFp != newFp
      {
        StrandedRow(w, originals, newKey, newKeyRef, now, id);
      }
    }
  }

  lemma StrandedRow(w: World, originals: map<string, string>, newKey: Key, newKeyRef: string, now: int, id: string)
    requires Good(w, originals) && id in originals
    requires Start(w.db, w.host, newKey, newKeyRef, now).Ok? && w.host.resolve(newKeyRef) != Some(newKey)
    ensures var after := Start(w.db, w.host, newKey, newKeyRef, now).value;
      && AtMostOneActive(after.slots)
      && (Recoverable(after, w.host, w.db.envelopes[id], originals[id]) <==> w.db.envelopes[id].keyFp != w.host.fingerprint(newKey))
  {
    var host, row := w.host, w.db.envelopes[id];
    var after := Start(w.db, host, newKey, newKeyRef, now).value;
    StartActivatesOne(w.db, host, newKey, newKeyRef, now);
    assert SealedAs(host, row, originals[id]) && KeyIsHeld(w.db, host, row.keyFp);
    if row.keyFp == host.fingerprint(newKey) {
      assert LegacyKey(after.slots, host, row.keyFp).None?;
    } else {
      assert row.keyFp != RootFp(host) ==> LegacyKey(after.slots, host, row.keyFp) == Some(row.ciphertext.key);
    }
  }

  // ---------------------------------------------------------------------------------------------
  // Re-encrypt and finalize
  // ---------------------------------------------------------------------------------------------

  /** A row not stamped with the active key opens to its original under the configured key's cipher. */
  lemma LegacyRowOpens(db: Db, host: Host, row: Envelope, plaintext: string)
    requires Configured(host) && SlotsGood(db.slots, host) && SealedAs(host, row, plaintext) && KeyIsHeld(db, host, row.keyFp)
    requires row.keyFp != host.fingerprint(ActiveRootKey(db.slots, host).value) || Active(db.slots) == {}
    ensures CipherOpen(db.slots, host, host.rootKey.value, row) == Some(plaintext)
  {
    ActiveKeyIsOwn(db.slots, host);
    assert row.keyFp in db.slots && db.slots[row.keyFp].isActive ==> row.keyFp in Active(db.slots);
  }

  /** Re-encryption never fails in a good state, keeps it good, and leaves every row under the active key. */
  lemma ReencryptMovesEveryRow(w: World, originals: map<string, string>, nonces: string -> int, now: int)
    requires Good(w, originals)
    ensures var r := Reencrypt(w.db, w.host, nonces, now);
      && r.Ok? && r.value.slots == w.db.slots
      && Good(w.(db := r.value), originals)
      && forall id :: id in originals ==>
           r.value.envelopes[id].keyFp == w.host.fingerprint(ActiveRootKey(w.db.slots, w.host).value)
  {
    var db, host := w.db, w.host;
    ActiveKeyIsOwn(db.slots, host);
    var key, root := ActiveRootKey(db.slots, host).value, host.rootKey.value;
    var moved := Legacy(db, host.fingerprint(key));
    forall id | id in moved ensures CipherOpen(db.slots, host, root, db.envelopes[id]) == Some(originals[id]) {
      LegacyRowOpens(db, host, db.envelopes[id], originals[id]);
    }
    assert forall id :: id in moved ==> Readable(db, host, root, id);
    var rows := RewriteRows(db, host, root, key, moved, nonces, now);
    forall id | id in originals
      ensures SealedAs(host, rows[id], originals[id]) && rows[id].keyFp == host.fingerprint(key)
    {
      assert SealedAs(host, db.envelopes[id], originals[id]);
    }
    ActiveFpIsHeld(w, originals);
  }

  lemma ActiveFpIsHeld(w: World, originals: map<string, string>)
    requires Good(w, originals)
    ensures ActiveRootKey(w.db.slots, w.host).Ok?
    ensures KeyIsHeld(w.db, w.host, w.host.fingerprint(ActiveRootKey(w.db.slots, w.host).value))
  {
    ActiveKeyIsOwn(w.db.slots, w.host);
    var fp := w.host.fingerprint(ActiveRootKey(w.db.slots, w.host).value);
    if Active(w.db.slots) != {} {
      assert fp in Active(w.db.slots);
    }
  }

  lemma FinalizeKeepsGood(w: World, originals: map<string, string>, finalizeNow: bool, now: int)
    requires Good(w, originals) && Finalize(w.db, w.host, finalizeNow, now).Ok?
    ensures Good(w.(db := Finalize(w.db, w.host, finalizeNow, now).value), originals)
  {
    var after := Finalize(w.db, w.host, finalizeNow, now).value;
    forall id | id in originals ensures KeyIsHeld(after, w.host, w.db.envelopes[id].keyFp) {
      var f := w.db.envelopes[id].keyFp;
      assert KeyIsHeld(w.db, w.host, f) && Pending(w.db.envelopes, f);
      if f in w.db.slots {
        FinalizeKeepsUsedSlots(w.db, w.host, finalizeNow, now, f);
      }
    }
    forall f | f in Active(after.slots) ensures ResolvesToOwnKey(after.slots, w.host, f) {
      assert f in Active(w.db.slots);
      assert ResolvesToOwnKey(w.db.slots, w.host, f);
    }
  }

  /** Re-encrypt, then finalize at once: both succeed, and the active slot is all that is left. */
  lemma RotationCompletes(w: World, originals: map<string, string>, nonces: string -> int, now: int, later: int, f: Fingerprint)
    requires Good(w, originals) && Active(w.db.slots) == {f}
    ensures var moved := Reencrypt(w.db, w.host, nonces, now);
      && moved.Ok? && AtMostOneActive(moved.value.slots)
      && var done := Finalize(moved.value, w.host, true, later);
         && done.Ok? && f in w.db.slots
         && done.value.slots == map[f := w.db.slots[f]]
         && forall id :: id in originals ==> id in done.value.envelopes && done.value.envelopes[id].keyFp == f
  {
    ReencryptMovesEveryRow(w, originals, nonces, now);
    ActiveKeyIsOwn(w.db.slots, w.host);
    var moved := Reencrypt(w.db, w.host, nonces, now).value;
    assert f in Active(w.db.slots);
    forall g | g in moved.slots && !moved.slots[g].isActive ensures !Pending(moved.envelopes, g) {
      assert g !in Active(w.db.slots);
    }
    var kept := Finalize(moved, w.host, true, later).value.slots;
    forall g | g in kept ensures g == f {
      assert g in Active(w.db.slots);
    }
  }

  lemma OldRowOpensAfterStdinStart(w: World, originals: map<string, string>, newKey: Key, now: int, id: string)
    requires Good(w, originals) && id in originals && w.db.envelopes[id].keyFp != w.host.fingerprint(newKey)
    requires Start(w.db, w.host, newKey, ENV_ROOT_KEY_REF, now).Ok?
    ensures var after := Start(w.db, w.host, newKey, ENV_ROOT_KEY_REF, now).value;
      CipherOpen(after.slots, w.host, w.host.rootKey.value, w.db.envelopes[id]) == Some(originals[id])
  {
    var row := w.db.envelopes[id];
    assert SealedAs(w.host, row, originals[id]) && KeyIsHeld(w.db, w.host, row.keyFp);
  }

  /**
   A rotation whose new key came in on standard input moves nothing: the new slot points at the
   environment, which still holds the old key, so re-encryption collects every row under the OLD key
   and finalizing is refused for as long as there is a secret.
   */
  lemma StdinRotationMovesNothing(
    w: World, originals: map<string, string>, newKey: Key, nonces: string -> int, now: int, later: int)
    requires Good(w, originals) && !Pending(w.db.envelopes, w.host.fingerprint(newKey))
    requires Start(w.db, w.host, newKey, ENV_ROOT_KEY_REF, now).Ok?
    ensures var started := Start(w.db, w.host, newKey, ENV_ROOT_KEY_REF, now).value;
      && AtMostOneActive(started.slots)
      && var moved := Reencrypt(started, w.host, nonces, now);
         && moved.Ok? && AtMostOneActive(moved.value.slots)
         && (forall id :: id in originals ==>
               id in moved.value.envelopes && moved.value.envelopes[id].keyFp == RootFp(w.host))
         && (originals != map[] ==> Finalize(moved.value, w.host, true, later) == Err(StillPending))
  {
    var host := w.host;
    StartActivatesOne(w.db, host, newKey, ENV_ROOT_KEY_REF, now);
    var started := Start(w.db, host, newKey, ENV_ROOT_KEY_REF, now).value;
    assert ActiveRootKey(started.slots, host) == Ok(host.rootKey.value) by {
      assert host.fingerprint(newKey) in Active(started.slots);
    }
    forall id | id in Legacy(started, RootFp(host)) ensures Readable(started, host, host.rootKey.value, id) {
      OldRowOpensAfterStdinStart(w, originals, newKey, now, id);
    }
    var moved := Reencrypt(started, host, nonces, now).value;
    if originals != map[] {
      var id :| id in originals;
      assert Pending(moved.envelopes, RootFp(host));
      assert RootFp(host) in moved.slots && !moved.slots[RootFp(host)].isActive;
    }
  }

  // ---------------------------------------------------------------------------------------------
  // Where a rotation ends up
  // ---------------------------------------------------------------------------------------------

  /** Whatever the new reference resolves to, re-encryption leaves every row under the key it takes for active. */
  lemma RowsEndUnderActiveKey(db: Db, host: Host, nonces: string -> int, now: int, id: string)
    requires AtMostOneActive(db.slots) && Reencrypt(db, host, nonces, now).Ok? && id in db.envelopes
    ensures ActiveRootKey(db.slots, host).Ok?
    ensures var after := Reencrypt(db, host, nonces, now).value;
      && after.slots == db.slots && id in after.envelopes
      && after.envelopes[id].keyFp == host.fingerprint(ActiveRootKey(db.slots, host).value)
  {
  }

  lemma StartedKey(w: World, newKey: Key, newKeyRef: string, now: int)
    requires Configured(w.host) && Start(w.db, w.host, newKey, newKeyRef, now).Ok?
    ensures var started := Start(w.db, w.host, newKey, newKeyRef, now).value;
      && AtMostOneActive(started.slots)
      && var key := ActiveRootKey(started.slots, w.host);
         && key == Ok(if w.host.resolve(newKeyRef).Some? then w.host.resolve(newKeyRef).value else w.host.rootKey.value)
         && (w.host.fingerprint(key.value) == w.host.fingerprint(newKey) <==> w.host.resolve(newKeyRef) == Some(newKey))
  {
    StartActivatesOne(w.db, w.host, newKey, newKeyRef, now);
    var started := Start(w.db, w.host, newKey, newKeyRef, now).value;
    assert w.host.fingerprint(newKey) in Active(started.slots);
  }

  /** A start followed by re-encryption moves the rows to the new key exactly when its reference resolves to it. */
  lemma RowsMoveToNewKeyIff(
    w: World, originals: map<string, string>, newKey: Key, newKeyRef: string, nonces: string -> int, now: int)
    requires Good(w, originals) && originals != map[] && Start(w.db, w.host, newKey, newKeyRef, now).Ok?
    ensures var started := Start(w.db, w.host, newKey, newKeyRef, now).value;
      && AtMostOneActive(started.slots)
      && var moved := Reencrypt(started, w.host, nonces, now);
         (moved.Ok? && AllUnder(moved.value.envelopes, originals, w.host.fingerprint(newKey)))
         <==> w.host.resolve(newKeyRef) == Some(newKey)
  {
    StartedKey(w, newKey, newKeyRef, now);
    var started := Start(w.db, w.host, newKey, newKeyRef, now).value;
    var moved := Reencrypt(started, w.host, nonces, now);
    if w.host.resolve(newKeyRef) == Some(newKey) {
      StartKeepsGood(w, originals, newKey, newKeyRef, now);
      ReencryptMovesEveryRow(w.(db := started), originals, nonces, now);
    } else if moved.Ok? {
      var id :| id in originals;
      RowsEndUnderActiveKey(started, w.host, nonces, now, id);
    }
  }

  predicate AllUnder(envelopes: Envelopes, originals: map<string, string>, f: Fingerprint) {
    forall id :: id in originals ==> id in envelopes && envelopes[id].keyFp == f
  }

  /** After a start and a re-encryption, finalizing at once is refused exactly when the rows sit under a retired slot. */
  lemma FinalizeNowIff(
    w: World, originals: map<string, string>, newKey: Key, newKeyRef: string, nonces: string -> int, now: int, later: int)
    requires Good(w, originals) && originals != map[] && Start(w.db, w.host, newKey, newKeyRef, now).Ok?
    ensures var started := Start(w.db, w.host, newKey, newKeyRef, now).value;
      && AtMostOneActive(started.slots) && ActiveRootKey(started.slots, w.host).Ok?
      && var moved, fp := Reencrypt(started, w.host, nonces, now), w.host.fingerprint(ActiveRootKey(started.slots, w.host).value);
         moved.Ok? ==>
           && AtMostOneActive(moved.value.slots)
           && (Finalize(moved.value, w.host, true, later).Ok? <==> fp !in started.slots || fp == w.host.fingerprint(newKey))
  {
    StartedKey(w, newKey, newKeyRef, now);
    StartActivatesOne(w.db, w.host, newKey, newKeyRef, now);
    var started := Start(w.db, w.host, newKey, newKeyRef, now).value;
    var moved, fp := Reencrypt(started, w.host, nonces, now), w.host.fingerprint(ActiveRootKey(started.slots, w.host).value);
    if moved.Ok? {
      PendingAfterReencrypt(started, w.host, nonces, now);
    }
  }

  lemma PendingAfterReencrypt(db: Db, host: Host, nonces: string -> int, now: int)
    requires AtMostOneActive(db.slots) && Reencrypt(db, host, nonces, now).Ok? && db.envelopes != map[]
    ensures ActiveRootKey(db.slots, host).Ok? && Reencrypt(db, host, nonces, now).value.slots == db.slots
    ensures var rows, fp := Reencrypt(db, host, nonces, now).value.envelopes, host.fingerprint(ActiveRootKey(db.slots, host).value);
      forall f :: Pending(rows, f) <==> f == fp
  {
    var rows, fp := Reencrypt(db, host, nonces, now).value.envelopes, host.fingerprint(ActiveRootKey(db.slots, host).value);
    forall id | id in rows ensures rows[id].keyFp == fp {
      RowsEndUnderActiveKey(db, host, nonces, now, id);
    }
    var id :| id in db.envelopes;
    assert id in rows;
  }

  /** Re-encrypt then finalize-now completes a rotation exactly when the new reference resolves to the new key. */
  lemma RotationCompletesIff(
    w: World, originals: map<string, string>, newKey: Key, newKeyRef: string, nonces: string -> int, now: int, later: int)
    requires Good(w, originals) && originals != map[] && Start(w.db, w.host, newKey, newKeyRef, now).Ok?
    ensures var started, newFp := Start(w.db, w.host, newKey, newKeyRef, now).value, w.host.fingerprint(newKey);
      && AtMostOneActive(started.slots)
      && (Completed(started, w.host, originals, newFp, nonces, now, later) <==> w.host.resolve(newKeyRef) == Some(newKey))
  {
    var started, newFp := Start(w.db, w.host, newKey, newKeyRef, now).value, w.host.fingerprint(newKey);
    RowsMoveToNewKeyIff(w, originals, newKey, newKeyRef, nonces, now);
    StartActivatesOne(w.db, w.host, newKey, newKeyRef, now);
    if w.host.resolve(newKeyRef) == Some(newKey) {
      StartKeepsGood(w, originals, newKey, newKeyRef, now);
      RotationCompletes(w.(db := started), originals, nonces, now, later, newFp);
    }
  }

  /** Both steps succeed, only slot `f` is left, and every row is under it. */
  ghost predicate Completed(
    db: Db, host: Host, originals: map<string, string>, f: Fingerprint, nonces: string -> int, now: int, later: int)
    requires AtMostOneActive(db.slots)
  {
    var moved := Reencrypt(db, host, nonces, now);
    && moved.Ok? && AllUnder(moved.value.envelopes, originals, f) && AtMostOneActive(moved.value.slots)
    && var done := Finalize(moved.value, host, true, later);
       done.Ok? && done.value.slots.Keys == {f} && AllUnder(done.value.envelopes, originals, f)
  }

  // ---------------------------------------------------------------------------------------------
  // The operator's switch of the environment key
  // ---------------------------------------------------------------------------------------------

  /** A service still running on the old key reads nothing once the rows have moved: the active slot is not a legacy slot. */
  lemma OldKeyServiceReadsNothingAfterReencrypt(
    w: World, originals: map<string, string>, nonces: string -> int, now: int, f: Fingerprint, id: string)
    requires Good(w, originals) && Active(w.db.slots) == {f} && f != RootFp(w.host) && id in originals
    ensures var after := Reencrypt(w.db, w.host, nonces, now);
      && after.Ok? && id in after.value.envelopes
      && CipherOpen(after.value.slots, w.host, w.host.rootKey.value, after.value.envelopes[id]).None?
      && ActiveRootKey(w.db.slots, w.host).Ok?
      && CipherOpen(after.value.slots, w.host, ActiveRootKey(w.db.slots, w.host).value, after.value.envelopes[id])
         == Some(originals[id])
  {
    ReencryptMovesEveryRow(w, originals, nonces, now);
    ActiveKeyIsOwn(w.db.slots, w.host);
    assert f in Active(w.db.slots);
    var after := Reencrypt(w.db, w.host, nonces, now).value;
    assert SealedAs(w.host, after.envelopes[id], originals[id]);
  }

  /** The slot's reference leads to its key without going through the environment's. */
  predicate KeptWithoutEnv(slots: Slots, host: Host, f: Fingerprint) {
    f in slots && slots[f].keyRef != ENV_ROOT_KEY_REF && ResolvesToOwnKey(slots, host, f)
  }

  lemma KeptAcrossSwitch(slots: Slots, host: Host, key: Key, f: Fingerprint)
    requires Configured(host)
    ensures ResolvesToOwnKey(slots, Switched(host, key), f)
       <==> KeptWithoutEnv(slots, host, f) || (f in slots && slots[f].keyRef == ENV_ROOT_KEY_REF && f == host.fingerprint(key))
    ensures ResolvesToOwnKey(slots, host, f) && f != RootFp(host) ==> KeptWithoutEnv(slots, host, f)
  {
  }

  /** A retired slot opens a row after the switch exactly when it keeps the row's key without the environment. */
  lemma LegacyAcrossSwitch(w: World, originals: map<string, string>, key: Key, root: Key, id: string)
    requires Good(w, originals) && id in originals && w.db.envelopes[id].keyFp != w.host.fingerprint(root)
    requires w.db.envelopes[id].keyFp != w.host.fingerprint(key)
    ensures var f := w.db.envelopes[id].keyFp;
      CipherOpen(w.db.slots, Switched(w.host, key), root, w.db.envelopes[id]) == Some(originals[id])
      <==> KeptWithoutEnv(w.db.slots, w.host, f) && f !in Active(w.db.slots)
  {
    assert SealedAs(w.host, w.db.envelopes[id], originals[id]);
    KeptAcrossSwitch(w.db.slots, w.host, key, w.db.envelopes[id].keyFp);
  }

  /** One row across a switch to any key, as the service reads it. */
  lemma RowServedAcrossSwitch(w: World, originals: map<string, string>, key: Key, id: string)
    requires Good(w, originals) && id in originals
    ensures var f := w.db.envelopes[id].keyFp;
      ServiceReads(w.db, Switched(w.host, key), w.db.envelopes[id], originals[id])
      <==> f == w.host.fingerprint(key) || (KeptWithoutEnv(w.db.slots, w.host, f) && f !in Active(w.db.slots))
  {
    var f := w.db.envelopes[id].keyFp;
    assert SealedAs(w.host, w.db.envelopes[id], originals[id]);
    if f != w.host.fingerprint(key) {
      LegacyAcrossSwitch(w, originals, key, key, id);
    }
  }

  /** The active key after a switch: its own, unless its slot points at the environment. */
  lemma ActiveAcrossSwitch(w: World, originals: map<string, string>, key: Key)
    requires Good(w, originals)
    ensures var after := ActiveRootKey(w.db.slots, Switched(w.host, key));
      && after.Ok?
      && (after.value == key
          || (w.host.fingerprint(after.value) in Active(w.db.slots)
              && KeptWithoutEnv(w.db.slots, w.host, w.host.fingerprint(after.value))))
    ensures forall f :: f in Active(w.db.slots) && KeptWithoutEnv(w.db.slots, w.host, f) ==>
      w.host.fingerprint(ActiveRootKey(w.db.slots, Switched(w.host, key)).value) == f
  {
    if Active(w.db.slots) != {} {
      var f :| f in Active(w.db.slots);
      assert ResolvesToOwnKey(w.db.slots, w.host, f);
      KeptAcrossSwitch(w.db.slots, w.host, key, f);
      assert Active(w.db.slots) == {f};
    }
  }

  lemma RowRecoverableAcrossSwitch(w: World, originals: map<string, string>, key: Key, id: string)
    requires Good(w, originals) && id in originals
    ensures var f := w.db.envelopes[id].keyFp;
      Recoverable(w.db, Switched(w.host, key), w.db.envelopes[id], originals[id])
      <==> f == w.host.fingerprint(key) || KeptWithoutEnv(w.db.slots, w.host, f)
  {
    var f := w.db.envelopes[id].keyFp;
    assert SealedAs(w.host, w.db.envelopes[id], originals[id]);
    RowServedAcrossSwitch(w, originals, key, id);
    ActiveAcrossSwitch(w, originals, key);
    var active := ActiveRootKey(w.db.slots, Switched(w.host, key)).value;
    if f != w.host.fingerprint(key) && f != w.host.fingerprint(active) {
      LegacyAcrossSwitch(w, originals, key, active, id);
    }
  }

  /** What a switch to `key` leaves behind: rows under the old key whose slot leads only to the environment. */
  predicate LosesOldRows(w: World, key: Key)
    requires w.host.rootKey.Some?
  {
    && Pending(w.db.envelopes, RootFp(w.host)) && w.host.fingerprint(key) != RootFp(w.host)
    && !KeptWithoutEnv(w.db.slots, w.host, RootFp(w.host))
  }

  /**
   Configuring any key keeps every secret recoverable exactly when it is the old key, or no row is left under the
   old key, or a slot still leads to the old key without the environment.
   */
  lemma SwitchKeepsSecretsIff(w: World, originals: map<string, string>, key: Key)
    requires Good(w, originals)
    ensures AllRecoverable(w.(host := Switched(w.host, key)), originals) <==> !LosesOldRows(w, key)
  {
    forall id | id in originals
      ensures Recoverable(w.db, Switched(w.host, key), w.db.envelopes[id], originals[id])
         <==> !(w.db.envelopes[id].keyFp == RootFp(w.host) && LosesOldRows(w, key))
    {
      RowRecoverableAcrossSwitch(w, originals, key, id);
      assert KeyIsHeld(w.db, w.host, w.db.envelopes[id].keyFp) && Pending(w.db.envelopes, w.db.envelopes[id].keyFp);
      KeptAcrossSwitch(w.db.slots, w.host, key, w.db.envelopes[id].keyFp);
    }
  }

  /** What the operator can check: no row is lost, and the active slot does not hang on the old environment. */
  predicate SwitchGuard(w: World, key: Key)
    requires w.host.rootKey.Some?
  {
    && !LosesOldRows(w, key)
    && forall f :: f in Active(w.db.slots) && w.db.slots[f].keyRef == ENV_ROOT_KEY_REF ==> f == w.host.fingerprint(key)
  }

  /** The guard is exactly what keeps the rotation invariant. */
  lemma SwitchKeepsGoodIff(w: World, originals: map<string, string>, key: Key)
    requires Good(w, originals)
    ensures Good(Apply(w, SwitchOp(key)), originals) <==> SwitchGuard(w, key)
  {
    var next := Switched(w.host, key);
    assert Configured(next);
    forall f | f in Active(w.db.slots)
      ensures ResolvesToOwnKey(w.db.slots, next, f)
         <==> (w.db.slots[f].keyRef == ENV_ROOT_KEY_REF ==> f == w.host.fingerprint(key))
    {
      assert ResolvesToOwnKey(w.db.slots, w.host, f);
      KeptAcrossSwitch(w.db.slots, w.host, key, f);
    }
    forall id | id in originals ensures SealedAs(next, w.db.envelopes[id], originals[id]) {
      assert SealedAs(w.host, w.db.envelopes[id], originals[id]);
    }
    forall id | id in originals
      ensures KeyIsHeld(w.db, next, w.db.envelopes[id].keyFp)
         <==> !(w.db.envelopes[id].keyFp == RootFp(w.host) && LosesOldRows(w, key))
    {
      HeldAcrossSwitch(w, originals, key, id);
    }
    if LosesOldRows(w, key) {
      var id :| id in w.db.envelopes && w.db.envelopes[id].keyFp == RootFp(w.host);
      assert id in originals;
    }
  }

  lemma HeldAcrossSwitch(w: World, originals: map<string, string>, key: Key, id: string)
    requires Good(w, originals) && id in originals
    ensures KeyIsHeld(w.db, Switched(w.host, key), w.db.envelopes[id].keyFp)
       <==> !(w.db.envelopes[id].keyFp == RootFp(w.host) && LosesOldRows(w, key))
  {
    var f := w.db.envelopes[id].keyFp;
    assert KeyIsHeld(w.db, w.host, f) && Pending(w.db.envelopes, f);
    KeptAcrossSwitch(w.db.slots, w.host, key, f);
  }

  /**
   Configuring a key right after a start, rows not yet moved: the service reads exactly the rows under that key and
   those under neither the old key, whose slot now leads to the environment, nor the new one, whose slot is active.
   */
  lemma StartThenSwitch(
    w: World, originals: map<string, string>, newKey: Key, newKeyRef: string, now: int, key: Key, id: string)
    requires Good(w, originals) && id in originals && Start(w.db, w.host, newKey, newKeyRef, now).Ok?
    ensures var started, f := Start(w.db, w.host, newKey, newKeyRef, now).value, w.db.envelopes[id].keyFp;
      ServiceReads(started, Switched(w.host, key), w.db.envelopes[id], originals[id])
      <==> f == w.host.fingerprint(key) || (f != RootFp(w.host) && f != w.host.fingerprint(newKey))
  {
    var started, f := Start(w.db, w.host, newKey, newKeyRef, now).value, w.db.envelopes[id].keyFp;
    StartActivatesOne(w.db, w.host, newKey, newKeyRef, now);
    assert SealedAs(w.host, w.db.envelopes[id], originals[id]) && KeyIsHeld(w.db, w.host, f);
    KeptAcrossSwitch(w.db.slots, w.host, key, f);
    if f != RootFp(w.host) && f != w.host.fingerprint(newKey) {
      assert started.slots[f].keyRef == w.db.slots[f].keyRef;
    }
  }

  /** So configuring the new key before the rows have moved serves every secret exactly when none is under the old key. */
  lemma SwitchBeforeReencryptIff(w: World, originals: map<string, string>, newKey: Key, newKeyRef: string, now: int)
    requires Good(w, originals) && Start(w.db, w.host, newKey, newKeyRef, now).Ok?
    ensures AllServed(World(Start(w.db, w.host, newKey, newKeyRef, now).value, Switched(w.host, newKey)), originals)
       <==> !Pending(w.db.envelopes, RootFp(w.host))
  {
    StartActivatesOne(w.db, w.host, newKey, newKeyRef, now);
    forall id | id in originals {
      StartThenSwitch(w, originals, newKey, newKeyRef, now, newKey, id);
    }
    var started := Start(w.db, w.host, newKey, newKeyRef, now).value;
    if Pending(w.db.envelopes, RootFp(w.host)) {
      var id :| id in w.db.envelopes && w.db.envelopes[id].keyFp == RootFp(w.host);
      StartThenSwitch(w, originals, newKey, newKeyRef, now, newKey, id);
      assert id in originals;
    }
  }

  // ---------------------------------------------------------------------------------------------
  // Every run
  // ---------------------------------------------------------------------------------------------

  /** What the operator has to check before an operation; re-encrypt, finalize and writes need nothing. */
  predicate Guarded(w: World, op: Op) {
    match op
    case StartOp(newKey, newKeyRef, _) => w.host.resolve(newKeyRef) == Some(newKey)
    case SwitchOp(key) => w.host.rootKey.Some? && SwitchGuard(w, key)
    case _ => true
  }

  predicate GuardedRun(host: Host, ops: seq<Op>) {
    ops != [] ==>
      GuardedRun(host, ops[..|ops| - 1]) && Guarded(After(host, ops[..|ops| - 1]), ops[|ops| - 1])
  }

  lemma StoreKeepsGood(w: World, originals: map<string, string>, op: Op)
    requires Good(w, originals) && op.StoreOp?
    ensures Good(Apply(w, op), Noted(originals, op))
  {
    var after := Apply(w, op);
    forall id | id in Noted(originals, op)
      ensures id in after.db.envelopes && KeyIsHeld(after.db, w.host, after.db.envelopes[id].keyFp)
      ensures SealedAs(w.host, after.db.envelopes[id], Noted(originals, op)[id])
    {
      if id in originals {
        assert SealedAs(w.host, w.db.envelopes[id], originals[id]) && KeyIsHeld(w.db, w.host, w.db.envelopes[id].keyFp);
      }
    }
  }

  lemma ApplyKeepsGood(w: World, originals: map<string, string>, op: Op)
    requires Good(w, originals) && Guarded(w, op)
    ensures Good(Apply(w, op), Noted(originals, op))
  {
    match op {
      case StartOp(key, keyRef, now) =>
        if Start(w.db, w.host, key, keyRef, now).Ok? { StartKeepsGood(w, originals, key, keyRef, now); }
      case ReencryptOp(nonces, now) => ReencryptMovesEveryRow(w, originals, nonces, now);
      case FinalizeOp(finalizeNow, now) =>
        if Finalize(w.db, w.host, finalizeNow, now).Ok? { FinalizeKeepsGood(w, originals, finalizeNow, now); }
      case StoreOp(_, _, _, _) => StoreKeepsGood(w, originals, op);
      case SwitchOp(key) => SwitchKeepsGoodIff(w, originals, key);
    }
  }

  lemma {:induction false} RunKeepsGood(host: Host, ops: seq<Op>)
    requires Configured(host) && GuardedRun(host, ops)
    ensures Good(After(host, ops), Originals(ops))
  {
    if ops != [] {
      var n := |ops| - 1;
      RunKeepsGood(host, ops[..n]);
      ApplyKeepsGood(After(host, ops[..n]), Originals(ops[..n]), ops[n]);
    }
  }

  /**
   Over every guarded run from empty tables, chained rotations and switches of the environment key included,
   every secret stored so far is recoverable as it was stored, re-encryption cannot fail, and the service itself
   reads everything exactly when no row is under an active key that is not configured.
   */
  lemma {:induction false} EverySecretSurvives(host: Host, ops: seq<Op>, nonces: string -> int, now: int)
    requires Configured(host) && GuardedRun(host, ops)
    ensures var w := After(host, ops);
      && AllRecoverable(w, Originals(ops)) && Reencrypt(w.db, w.host, nonces, now).Ok? && w.host.rootKey.Some?
      && (AllServed(w, Originals(ops))
          <==> forall f :: f in Active(w.db.slots) ==> f == RootFp(w.host) || !Pending(w.db.envelopes, f))
  {
    RunKeepsGood(host, ops);
    GoodIsRecoverable(After(host, ops), Originals(ops));
    ReencryptMovesEveryRow(After(host, ops), Originals(ops), nonces, now);
    AllServedIff(After(host, ops), Originals(ops));
  }

  // ---------------------------------------------------------------------------------------------
  // Which runs keep the service itself reading
  // ---------------------------------------------------------------------------------------------

  /** What an operation has to respect, beyond its guard, for a service that reads everything to go on doing so. */
  predicate KeepsServing(w: World, op: Op)
    requires AtMostOneActive(w.db.slots)
  {
    match op
    case StartOp(newKey, newKeyRef, now) =>
      Start(w.db, w.host, newKey, newKeyRef, now).Ok? ==> !Pending(w.db.envelopes, w.host.fingerprint(newKey))
    case ReencryptOp(_, _) =>
      w.db.envelopes == map[] || (w.host.rootKey.Some? && ActiveRootKey(w.db.slots, w.host) == Ok(w.host.rootKey.value))
    case SwitchOp(key) => forall f :: f in Active(w.db.slots) && Pending(w.db.envelopes, f) ==> f == w.host.fingerprint(key)
    case _ => true
  }

  lemma StartServesIff(w: World, originals: map<string, string>, newKey: Key, newKeyRef: string, now: int)
    requires Good(w, originals) && w.host.resolve(newKeyRef) == Some(newKey)
    requires Start(w.db, w.host, newKey, newKeyRef, now).Ok?
    ensures AllServed(w.(db := Start(w.db, w.host, newKey, newKeyRef, now).value), originals)
       <==> !Pending(w.db.envelopes, w.host.fingerprint(newKey))
  {
    StartKeepsGood(w, originals, newKey, newKeyRef, now);
    StartActivatesOne(w.db, w.host, newKey, newKeyRef, now);
    AllServedIff(w.(db := Start(w.db, w.host, newKey, newKeyRef, now).value), originals);
  }

  lemma ReencryptServesIff(w: World, originals: map<string, string>, nonces: string -> int, now: int)
    requires Good(w, originals)
    ensures AllServed(Apply(w, ReencryptOp(nonces, now)), originals) <==> KeepsServing(w, ReencryptOp(nonces, now))
  {
    var after := Apply(w, ReencryptOp(nonces, now));
    ReencryptMovesEveryRow(w, originals, nonces, now);
    ActiveKeyIsOwn(w.db.slots, w.host);
    AllServedIff(after, originals);
    var fp := w.host.fingerprint(ActiveRootKey(w.db.slots, w.host).value);
    if originals != map[] {
      var id :| id in originals;
      assert Pending(after.db.envelopes, fp);
      if Active(w.db.slots) != {} { assert fp in Active(w.db.slots); }
    }
  }

  lemma FinalizeServes(w: World, originals: map<string, string>, finalizeNow: bool, now: int)
    requires Good(w, originals) && AllServed(w, originals)
    ensures AllServed(Apply(w, FinalizeOp(finalizeNow, now)), originals)
  {
    if Finalize(w.db, w.host, finalizeNow, now).Ok? {
      var after := Apply(w, FinalizeOp(finalizeNow, now));
      FinalizeKeepsGood(w, originals, finalizeNow, now);
      AllServedIff(w, originals);
      AllServedIff(after, originals);
      forall f | f in Active(after.db.slots) ensures f in Active(w.db.slots) {}
    }
  }

  lemma StoreServes(w: World, originals: map<string, string>, op: Op)
    requires Good(w, originals) && AllServed(w, originals) && op.StoreOp?
    ensures AllServed(Apply(w, op), Noted(originals, op))
  {
    StoreKeepsGood(w, originals, op);
    AllServedIff(w, originals);
    AllServedIff(Apply(w, op), Noted(originals, op));
  }

  lemma SwitchServesIff(w: World, originals: map<string, string>, key: Key)
    requires Good(w, originals) && SwitchGuard(w, key)
    ensures AllServed(Apply(w, SwitchOp(key)), originals) <==> KeepsServing(w, SwitchOp(key))
  {
    SwitchKeepsGoodIff(w, originals, key);
    AllServedIff(Apply(w, SwitchOp(key)), originals);
  }

  /** From a state in which the service reads everything, a guarded step leaves it so exactly when it respects that. */
  lemma StepServesIff(w: World, originals: map<string, string>, op: Op)
    requires Good(w, originals) && Guarded(w, op) && AllServed(w, originals)
    ensures AllServed(Apply(w, op), Noted(originals, op)) <==> KeepsServing(w, op)
  {
    match op {
      case StartOp(key, keyRef, now) =>
        if Start(w.db, w.host, key, keyRef, now).Ok? { StartServesIff(w, originals, key, keyRef, now); }
      case ReencryptOp(nonces, now) => ReencryptServesIff(w, originals, nonces, now);
      case FinalizeOp(finalizeNow, now) => FinalizeServes(w, originals, finalizeNow, now);
      case StoreOp(_, _, _, _) => StoreServes(w, originals, op);
      case SwitchOp(key) => SwitchServesIff(w, originals, key);
    }
  }

  /** The service reads everything in every state of the run. */
  ghost predicate AlwaysServed(host: Host, ops: seq<Op>) {
    AllServed(After(host, ops), Originals(ops)) && (ops != [] ==> AlwaysServed(host, ops[..|ops| - 1]))
  }

  ghost predicate EveryStepServes(host: Host, ops: seq<Op>) {
    ops != [] ==>
      KeepsServing(After(host, ops[..|ops| - 1]), ops[|ops| - 1]) && EveryStepServes(host, ops[..|ops| - 1])
  }

  /** A guarded run keeps the service reading throughout exactly when each of its steps respects that. */
  lemma {:induction false} RunServesIff(host: Host, ops: seq<Op>)
    requires Configured(host) && GuardedRun(host, ops)
    ensures AlwaysServed(host, ops) <==> EveryStepServes(host, ops)
  {
    if ops != [] {
      var n := |ops| - 1;
      RunServesIff(host, ops[..n]);
      RunKeepsGood(host, ops[..n]);
      if AlwaysServed(host, ops[..n]) {
        StepServesIff(After(host, ops[..n]), Originals(ops[..n]), ops[n]);
      }
    }
  }

  /**
   No order of the two remaining steps is seamless: while a row is under the old key and nothing but the environment
   leads to it, both re-encrypting first and switching first take secrets away from the service.
   */
  lemma NoSeamlessRotation(w: World, originals: map<string, string>, nonces: string -> int, now: int, f: Fingerprint)
    requires Good(w, originals) && Active(w.db.slots) == {f} && f != RootFp(w.host)
    requires Pending(w.db.envelopes, RootFp(w.host)) && !KeptWithoutEnv(w.db.slots, w.host, RootFp(w.host))
    ensures !AllServed(Apply(w, ReencryptOp(nonces, now)), originals)
    ensures ActiveRootKey(w.db.slots, w.host).Ok?
    ensures !AllServed(Apply(w, SwitchOp(ActiveRootKey(w.db.slots, w.host).value)), originals)
  {
    ActiveKeyIsOwn(w.db.slots, w.host);
    ReencryptServesIff(w, originals, nonces, now);
    assert f in Active(w.db.slots);
    SwitchFirstLoses(w, originals, ActiveRootKey(w.db.slots, w.host).value);
  }

  lemma SwitchFirstLoses(w: World, originals: map<string, string>, key: Key)
    requires Good(w, originals) && LosesOldRows(w, key)
    ensures !AllServed(Apply(w, SwitchOp(key)), originals)
  {
    var id :| id in w.db.envelopes && w.db.envelopes[id].keyFp == RootFp(w.host);
    assert id in originals;
    RowServedAcrossSwitch(w, originals, key, id);
  }

  // ---------------------------------------------------------------------------------------------
  // The 72 hours of a retired slot
  // ---------------------------------------------------------------------------------------------

  /** Operation `k` of a run is a start that succeeds, and it retires slot `f`. */
  ghost predicate Retires(host: Host, ops: seq<Op>, k: nat, f: Fingerprint) {
    && k < |ops| && ops[k].StartOp?
    && var w, newFp := After(host, ops[..k]), After(host, ops[..k]).host.fingerprint(ops[k].newKey);
       && w.host.rootKey.Some? && f != newFp && RootFp(w.host) != newFp
       && (f == RootFp(w.host) || f in Active(w.db.slots))
  }

  /** When a slot that is not active may go; what is active stays. */
  ghost predicate DueFrom(slots: Slots, f: Fingerprint, t: int) {
    f in slots && (slots[f].isActive || (slots[f].purgeAfter.Some? && slots[f].purgeAfter.value >= t))
  }

  lemma StartRetires(w: World, op: Op, f: Fingerprint)
    requires op.StartOp? && AtMostOneActive(w.db.slots) && w.host.rootKey.Some?
    requires RootFp(w.host) != w.host.fingerprint(op.newKey) && f != w.host.fingerprint(op.newKey)
    requires f == RootFp(w.host) || f in Active(w.db.slots)
    ensures var slots := Apply(w, op).db.slots;
      && f in slots && !slots[f].isActive && slots[f].retiredAt == Some(op.now)
      && slots[f].purgeAfter == Some(op.now + 72 * 3600)
  {
  }

  lemma StepKeepsDueFrom(w: World, op: Op, f: Fingerprint, t: int)
    requires AtMostOneActive(w.db.slots) && DueFrom(w.db.slots, f, t)
    requires op.StartOp? ==> op.now + 72 * 3600 >= t
    requires op.FinalizeOp? ==> !op.finalizeNow && op.now < t
    ensures DueFrom(Apply(w, op).db.slots, f, t)
  {
  }

  /** Neither an early finalize nor an operation that makes the clock go back. */
  ghost predicate WithinWindow(op: Op, t: int) {
    && (op.StartOp? ==> op.now >= t)
    && (op.FinalizeOp? ==> !op.finalizeNow && op.now < t + 72 * 3600)
  }

  lemma {:induction false} RetiredStaysDueFrom(host: Host, ops: seq<Op>, k: nat, f: Fingerprint)
    requires Retires(host, ops, k, f) && forall i :: k < i < |ops| ==> WithinWindow(ops[i], ops[k].now)
    ensures DueFrom(After(host, ops).db.slots, f, ops[k].now + 72 * 3600)
  {
    var n := |ops| - 1;
    if k < n {
      assert ops[..n][..k] == ops[..k];
      RetiredStaysDueFrom(host, ops[..n], k, f);
      StepKeepsDueFrom(After(host, ops[..n]), ops[n], f, ops[k].now + 72 * 3600);
    } else {
      StartRetires(After(host, ops[..k]), ops[k], f);
    }
  }

  /** A slot retired by a start outlives every finalize of the next 72 hours, whatever else is run meanwhile. */
  lemma {:induction false} RetiredSlotsLast(host: Host, ops: seq<Op>, k: nat, f: Fingerprint)
    requires Retires(host, ops, k, f) && forall i :: k < i < |ops| ==> WithinWindow(ops[i], ops[k].now)
    ensures f in After(host, ops).db.slots
  {
    RetiredStaysDueFrom(host, ops, k, f);
  }

  /** Gone, or retired and due at `t`. */
  ghost predicate DueBy(slots: Slots, f: Fingerprint, t: int) {
    f in slots ==> !slots[f].isActive && slots[f].purgeAfter.Some? && slots[f].purgeAfter.value <= t
  }

  lemma StepKeepsDueBy(w: World, op: Op, f: Fingerprint, t: int)
    requires AtMostOneActive(w.db.slots) && DueBy(w.db.slots, f, t) && !op.StartOp?
    ensures DueBy(Apply(w, op).db.slots, f, t)
  {
  }

  lemma {:induction false} RetiredIsDueBy(host: Host, ops: seq<Op>, k: nat, f: Fingerprint)
    requires Retires(host, ops, k, f) && forall i :: k < i < |ops| ==> !ops[i].StartOp?
    ensures DueBy(After(host, ops).db.slots, f, ops[k].now + 72 * 3600)
  {
    var n := |ops| - 1;
    if k < n {
      assert ops[..n][..k] == ops[..k];
      RetiredIsDueBy(host, ops[..n], k, f);
      StepKeepsDueBy(After(host, ops[..n]), ops[n], f, ops[k].now + 72 * 3600);
    } else {
      StartRetires(After(host, ops[..k]), ops[k], f);
    }
  }

  lemma DueSlotGoes(db: Db, host: Host, finalizeNow: bool, now: int, f: Fingerprint, t: int)
    requires AtMostOneActive(db.slots) && DueBy(db.slots, f, t) && Finalize(db, host, finalizeNow, now).Ok?
    requires finalizeNow || t <= now
    ensures f !in Finalize(db, host, finalizeNow, now).value.slots
  {
  }

  /** And no longer: once the 72 hours are over, or at once when told to, a finalize that succeeds leaves none of them. */
  lemma {:induction false} RetiredSlotsGo(host: Host, ops: seq<Op>, k: nat, f: Fingerprint, finalizeNow: bool, now: int)
    requires Retires(host, ops, k, f) && forall i :: k < i < |ops| ==> !ops[i].StartOp?
    requires finalizeNow || now >= ops[k].now + 72 * 3600
    requires var w := After(host, ops); Finalize(w.db, w.host, finalizeNow, now).Ok?
    ensures var w := After(host, ops); f !in Finalize(w.db, w.host, finalizeNow, now).value.slots
  {
    var w := After(host, ops);
    RetiredIsDueBy(host, ops, k, f);
    DueSlotGoes(w.db, w.host, finalizeNow, now, f, ops[k].now + 72 * 3600);
  }

  /** Between the two: after a start, with no other start or finalize, an ordinary finalize removes the slot exactly when it is time. */
  lemma {:induction false} RetiredSlotGoesIffDue(host: Host, ops: seq<Op>, k: nat, f: Fingerprint, now: int)
    requires Retires(host, ops, k, f) && forall i :: k < i < |ops| ==> !ops[i].StartOp? && WithinWindow(ops[i], ops[k].now)
    requires var w := After(host, ops); Finalize(w.db, w.host, false, now).Ok?
    ensures var w := After(host, ops);
      f in Finalize(w.db, w.host, false, now).value.slots <==> now < ops[k].now + 72 * 3600
  {
    var w := After(host, ops);
    if now < ops[k].now + 72 * 3600 {
      RetiredStaysDueFrom(host, ops, k, f);
      StepKeepsDueFrom(w, FinalizeOp(false, now), f, ops[k].now + 72 * 3600);
    } else {
      RetiredSlotsGo(host, ops, k, f, false, now);
    }
  }

  // ---------------------------------------------------------------------------------------------
  // What each operation refuses and what it writes
  // ---------------------------------------------------------------------------------------------

  /** A start is refused without a configured key, and when the new key's fingerprint is the configured one's. */
  lemma StartRefusedIff(db: Db, host: Host, newKey: Key, newKeyRef: string, now: int)
    ensures Start(db, host, newKey, newKeyRef, now) == Err(RootKeyMissing) <==> host.rootKey == None
    ensures Start(db, host, newKey, newKeyRef, now) == Err(SameKey)
       <==> host.rootKey != None && host.fingerprint(host.rootKey.value) == host.fingerprint(newKey)
  {
  }

  /** Finalizing is refused as long as any secret is under any retired slot, due or not. */
  lemma FinalizeRefusedIff(db: Db, host: Host, finalizeNow: bool, now: int)
    requires AtMostOneActive(db.slots) && ActiveRootKey(db.slots, host).Ok?
    ensures Finalize(db, host, finalizeNow, now) == Err(StillPending)
       <==> exists id :: id in db.envelopes && db.envelopes[id].keyFp in db.slots && !db.slots[db.envelopes[id].keyFp].isActive
  {
    if id :| id in db.envelopes && db.envelopes[id].keyFp in db.slots && !db.slots[db.envelopes[id].keyFp].isActive {
      assert Pending(db.envelopes, db.envelopes[id].keyFp);
    }
  }

  /** A row opens exactly under the key it was sealed with, under its own purpose and nonce, if the cipher comes by that key. */
  lemma OpensIff(slots: Slots, host: Host, root: Key, row: Envelope, plaintext: string)
    ensures CipherOpen(slots, host, root, row) == Some(plaintext)
       <==> && row.ciphertext == Sealed(row.ciphertext.key, row.purpose, row.nonce, plaintext)
            && (if row.keyFp == host.fingerprint(root) then row.ciphertext.key == root
                else row.keyFp in slots && !slots[row.keyFp].isActive
                     && host.resolve(slots[row.keyFp].keyRef) == Some(row.ciphertext.key))
  {
  }

  /** Re-encryption leaves rows under the active key alone; the others keep purpose and text and get a fresh nonce and date. */
  lemma RewrittenRows(db: Db, host: Host, nonces: string -> int, now: int, id: string)
    requires AtMostOneActive(db.slots) && Reencrypt(db, host, nonces, now).Ok? && id in db.envelopes
    ensures ActiveRootKey(db.slots, host).Ok? && id in Reencrypt(db, host, nonces, now).value.envelopes
    ensures var key, row := ActiveRootKey(db.slots, host).value, db.envelopes[id];
      var after := Reencrypt(db, host, nonces, now).value.envelopes[id];
      if row.keyFp == host.fingerprint(key) then after == row
      else after == Envelope(row.purpose, Sealed(key, row.purpose, nonces(id), row.ciphertext.plaintext),
                             nonces(id), host.fingerprint(key), Some(now))
  {
    var root := if host.rootKey.Some? then host.rootKey.value else ActiveRootKey(db.slots, host).value;
    if id in Legacy(db, host.fingerprint(ActiveRootKey(db.slots, host).value)) {
      assert Readable(db, host, root, id);
    }
  }

  /** The rows a start writes: the configured key's slot retired, the new key's active, and any other active slot retired. */
  lemma StartWrites(db: Db, host: Host, newKey: Key, newKeyRef: string, now: int, f: Fingerprint)
    requires Start(db, host, newKey, newKeyRef, now).Ok?
    ensures var after, oldFp, newFp := Start(db, host, newKey, newKeyRef, now).value, RootFp(host), host.fingerprint(newKey);
      && oldFp in after.slots && newFp in after.slots
      && after.slots[oldFp] == Slot("env:CREWDAY_ROOT_KEY", false, now, Some(now), Some(now + 259200), "retired by rotate-root-key")
      && after.slots[newFp] == Slot(newKeyRef, true, now, None, None, "active by rotate-root-key")
      && (f in db.slots && f != oldFp && f != newFp ==>
            && f in after.slots
            && after.slots[f] == (var slot := db.slots[f];
                                  if slot.isActive
                                  then Slot(slot.keyRef, false, slot.activatedAt, Some(now), Some(now + 259200), slot.notes)
                                  else slot))
  {
  }

  /** The key that rows are written under: the active slot's, if there is one and it resolves, and else the configured one. */
  lemma ActiveRootKeyIs(slots: Slots, host: Host, f: Fingerprint)
    requires AtMostOneActive(slots)
    ensures f in slots && slots[f].isActive && host.resolve(slots[f].keyRef).Some? ==>
      ActiveRootKey(slots, host) == Ok(host.resolve(slots[f].keyRef).value)
    ensures (forall g :: g in slots && slots[g].isActive ==> host.resolve(slots[g].keyRef).None?) ==>
      ActiveRootKey(slots, host) == if host.rootKey.Some? then Ok(host.rootKey.value) else Err(RootKeyMissing)
  {
    if f in slots && slots[f].isActive { assert f in Active(slots); }
  }

  /** A new secret is sealed and stamped under the configured key, and no other row changes; a taken id changes nothing. */
  lemma StoredRow(w: World, op: Op, id: string)
    requires op.StoreOp? && AtMostOneActive(w.db.slots) && w.host.rootKey.Some?
    ensures var after, key := Apply(w, op).db, w.host.rootKey.value;
      && after.slots == w.db.slots && after.envelopes.Keys == w.db.envelopes.Keys + {op.id}
      && (op.id !in w.db.envelopes ==>
            after.envelopes[op.id] == Envelope(op.purpose, Sealed(key, op.purpose, op.nonce, op.plaintext), op.nonce,
                                               w.host.fingerprint(key), None))
      && (id in w.db.envelopes ==> after.envelopes[id] == w.db.envelopes[id])
  {
  }
}
