/**
 Root-key rotation: the slot and envelope tables, and the start, re-encrypt and finalize operations.
 AES-GCM is symbolic: a ciphertext opens under exactly the root key, purpose and nonce it was sealed
 with. Each operation is one unit of work; an error leaves both tables as they were.
 */
module RootKeys {
  import opened Prelude

  type Key = string

  /** The first eight bytes of the SHA-256 of a root key, as a number. */
  datatype Fingerprint = Fingerprint(prefix: int)

  const ENV_ROOT_KEY_REF := "env:CREWDAY_ROOT_KEY"
  const ROTATION_WINDOW := 72 * 3600

  datatype Sealed = Sealed(key: Key, purpose: string, nonce: int, plaintext: string)

  function Unseal(key: Key, purpose: string, nonce: int, body: Sealed): Option<string> {
    if body.key == key && body.purpose == purpose && body.nonce == nonce then Some(body.plaintext) else None
  }

  datatype Slot = Slot(
    keyRef: string, isActive: bool, activatedAt: int, retiredAt: Option<int>, purgeAfter: Option<int>, notes: string)

  datatype Envelope = Envelope(purpose: string, ciphertext: Sealed, nonce: int, keyFp: Fingerprint, rotatedAt: Option<int>)

  type Slots = map<Fingerprint, Slot>
  type Envelopes = map<string, Envelope>

  /** The two tables; `key_fp` is unique among slots. */
  datatype Db = Db(slots: Slots, envelopes: Envelopes)

  /** What the machine provides: the configured root key, reference resolution and the fingerprint. */
  datatype Host = Host(rootKey: Option<Key>, resolve: string -> Option<Key>, fingerprint: Key -> Fingerprint)

  datatype RotationError = RootKeyMissing | SameKey | DecryptFailed | StillPending

  /** The result record; a start names the fingerprint it retired. */
  datatype RotationResult = RotationResult(
    activeFp: Fingerprint, legacyFp: Option<Fingerprint>, rowsReencrypted: nat, slotsPurged: nat)

  // ---------------------------------------------------------------------------------------------
  // Keys and the cipher
  // ---------------------------------------------------------------------------------------------

  ghost predicate AtMostOneActive(slots: Slots) {
    forall f, g :: f in slots && g in slots && slots[f].isActive && slots[g].isActive ==> f == g
  }

  function Active(slots: Slots): (active: set<Fingerprint>)
    ensures forall f :: f in active <==> f in slots && slots[f].isActive
  {
    set f | f in slots && slots[f].isActive
  }

  /** The active slot's key if its reference resolves, else the configured root key. */
  function ActiveRootKey(slots: Slots, host: Host): Result<Key, RotationError>
    requires AtMostOneActive(slots)
  {
    var configured := if host.rootKey.Some? then Ok(host.rootKey.value) else Err(RootKeyMissing);
    if Active(slots) == {} then configured
    else
      var f :| f in Active(slots);
      var resolved := host.resolve(slots[f].keyRef);
      if resolved.Some? then Ok(resolved.value) else configured
  }

  /** `legacy_root_key_for_fp`: only a retired slot is consulted. */
  function LegacyKey(slots: Slots, host: Host, f: Fingerprint): Option<Key> {
    if f in slots && !slots[f].isActive then host.resolve(slots[f].keyRef) else None
  }

  /** The row-backed cipher constructed with `root`. */
  function CipherOpen(slots: Slots, host: Host, root: Key, row: Envelope): Option<string> {
    var key := if row.keyFp == host.fingerprint(root) then Some(root) else LegacyKey(slots, host, row.keyFp);
    if key.None? then None else Unseal(key.value, row.purpose, row.nonce, row.ciphertext)
  }

  predicate Readable(db: Db, host: Host, root: Key, id: string) {
    id in db.envelopes && CipherOpen(db.slots, host, root, db.envelopes[id]).Some?
  }

  function Stored(host: Host, key: Key, purpose: string, plaintext: string, nonce: int): Envelope {
    Envelope(purpose, Sealed(key, purpose, nonce, plaintext), nonce, host.fingerprint(key), None)
  }

  // ---------------------------------------------------------------------------------------------
  // The operations as functions of the tables
  // ---------------------------------------------------------------------------------------------

  function RetiredSlot(slot: Slot, now: int): Slot {
    slot.(isActive := false, retiredAt := Some(now), purgeAfter := Some(now + ROTATION_WINDOW))
  }

  function RetireAll(slots: Slots, now: int): Slots {
    map f | f in slots :: if slots[f].isActive then RetiredSlot(slots[f], now) else slots[f]
  }

  function Start(db: Db, host: Host, newKey: Key, newKeyRef: string, now: int): Result<Db, RotationError> {
    if host.rootKey.None? then Err(RootKeyMissing)
    else
      var oldFp, newFp := host.fingerprint(host.rootKey.value), host.fingerprint(newKey);
      if oldFp == newFp then Err(SameKey)
      else
        var retired := Slot(ENV_ROOT_KEY_REF, false, now, Some(now), Some(now + ROTATION_WINDOW), "retired by rotate-root-key");
        var activated := Slot(newKeyRef, true, now, None, None, "active by rotate-root-key");
        Ok(db.(slots := RetireAll(db.slots, now)[oldFp := retired][newFp := activated]))
  }

  /** The row rewritten under `key`, its plaintext being what `root`'s cipher reads in it. */
  function Rewritten(row: Envelope, plaintext: string, host: Host, key: Key, nonce: int, now: int): Envelope {
    Envelope(row.purpose, Sealed(key, row.purpose, nonce, plaintext), nonce, host.fingerprint(key), Some(now))
  }

  function Legacy(db: Db, fp: Fingerprint): (ids: set<string>)
    ensures forall id :: id in ids <==> id in db.envelopes && db.envelopes[id].keyFp != fp
  {
    set id | id in db.envelopes && db.envelopes[id].keyFp != fp
  }

  function Reencrypt(db: Db, host: Host, nonces: string -> int, now: int): Result<Db, RotationError>
    requires AtMostOneActive(db.slots)
  {
    var active := ActiveRootKey(db.slots, host);
    if active.Err? then Err(active.error)
    else
      var root := if host.rootKey.Some? then host.rootKey.value else active.value;
      var moved := Legacy(db, host.fingerprint(active.value));
      if exists id :: id in moved && !Readable(db, host, root, id) then Err(DecryptFailed)
      else Ok(db.(envelopes := RewriteRows(db, host, root, active.value, moved, nonces, now)))
  }

  predicate AllOpen(db: Db, host: Host, root: Key, ids: set<string>) {
    forall id :: id in ids ==> Readable(db, host, root, id)
  }

  /** The rows in `moved` rewritten under `key`, each from what `root`'s cipher reads in it. */
  function RewriteRows(
    db: Db, host: Host, root: Key, key: Key, moved: set<string>, nonces: string -> int, now: int): (rows: Envelopes)
    requires AllOpen(db, host, root, moved)
    ensures rows.Keys == db.envelopes.Keys
  {
    map id | id in db.envelopes ::
      var row := db.envelopes[id];
      if id in moved then
        assert Readable(db, host, root, id);
        Rewritten(row, CipherOpen(db.slots, host, root, row).value, host, key, nonces(id), now)
      else row
  }

  lemma RewriteNone(db: Db, host: Host, root: Key, key: Key, nonces: string -> int, now: int)
    ensures RewriteRows(db, host, root, key, {}, nonces, now) == db.envelopes
  {
  }

  lemma RewriteUntouched(
    db: Db, host: Host, root: Key, key: Key, done: set<string>, id: string, nonces: string -> int, now: int)
    requires AllOpen(db, host, root, done)
    requires id in db.envelopes && id !in done
    ensures RewriteRows(db, host, root, key, done, nonces, now)[id] == db.envelopes[id]
  {
  }

  lemma RewriteOneMore(
    db: Db, host: Host, root: Key, key: Key, done: set<string>, id: string, nonces: string -> int, now: int)
    requires AllOpen(db, host, root, done) && Readable(db, host, root, id)
    ensures var row := db.envelopes[id];
      RewriteRows(db, host, root, key, done + {id}, nonces, now)
      == RewriteRows(db, host, root, key, done, nonces, now)
           [id := Rewritten(row, CipherOpen(db.slots, host, root, row).value, host, key, nonces(id), now)]
  {
  }

  predicate Pending(envelopes: Envelopes, f: Fingerprint) {
    exists id :: id in envelopes && envelopes[id].keyFp == f
  }

  predicate Purgeable(slot: Slot, finalizeNow: bool, now: int) {
    !slot.isActive && (finalizeNow || (slot.purgeAfter.Some? && slot.purgeAfter.value <= now))
  }

  function Finalize(db: Db, host: Host, finalizeNow: bool, now: int): Result<Db, RotationError>
    requires AtMostOneActive(db.slots)
  {
    var active := ActiveRootKey(db.slots, host);
    if active.Err? then Err(active.error)
    else if exists f :: f in db.slots && !db.slots[f].isActive && Pending(db.envelopes, f) then Err(StillPending)
    else Ok(db.(slots := db.slots - DueSlots(db.slots, finalizeNow, now)))
  }

  function DueSlots(slots: Slots, finalizeNow: bool, now: int): set<Fingerprint> {
    set f | f in slots && Purgeable(slots[f], finalizeNow, now)
  }

  // ---------------------------------------------------------------------------------------------
  // The operations as the program runs them
  // ---------------------------------------------------------------------------------------------

  class RotationSession {
    var slots: Slots
    var envelopes: Envelopes

    constructor ()
      ensures View() == Db(map[], map[])
    {
      slots, envelopes := map[], map[];
    }

    function View(): Db
      reads this
    {
      Db(slots, envelopes)
    }

    method StartRotation(host: Host, newKey: Key, newKeyRef: string, now: int)
      returns (r: Result<RotationResult, RotationError>)
      modifies this
      ensures var after := Start(old(View()), host, newKey, newKeyRef, now);
        if after.Err? then r == Err(after.error) && View() == old(View())
        else
          && View() == after.value && host.rootKey.Some?
          && r == Ok(RotationResult(host.fingerprint(newKey), Some(host.fingerprint(host.rootKey.value)), 0, 0))
    {
      if host.rootKey.None? {
        return Err(RootKeyMissing);
      }
      var oldFp, newFp := host.fingerprint(host.rootKey.value), host.fingerprint(newKey);
      if oldFp == newFp {
        return Err(SameKey);
      }
      var todo := Active(slots);
      while todo != {}
        invariant todo <= Active(old(slots)) && envelopes == old(envelopes)
        invariant slots == map f | f in old(slots) ::
          if f in Active(old(slots)) - todo then RetiredSlot(old(slots)[f], now) else old(slots)[f]
        decreases |todo|
      {
        var f :| f in todo;
        slots := slots[f := RetiredSlot(slots[f], now)];
        todo := todo - {f};
      }
      assert slots == RetireAll(old(slots), now);
      UpsertSlot(oldFp, Slot(ENV_ROOT_KEY_REF, false, now, Some(now), Some(now + ROTATION_WINDOW), "retired by rotate-root-key"));
      UpsertSlot(newFp, Slot(newKeyRef, true, now, None, None, "active by rotate-root-key"));
      return Ok(RotationResult(newFp, Some(oldFp), 0, 0));
    }

    method UpsertSlot(keyFp: Fingerprint, slot: Slot)
      modifies this
      ensures slots == old(slots)[keyFp := slot] && envelopes == old(envelopes)
    {
      slots := slots[keyFp := slot];
    }

    method ReencryptLegacyRows(host: Host, nonces: string -> int, now: int)
      returns (r: Result<RotationResult, RotationError>)
      requires AtMostOneActive(slots)
      modifies this
      ensures var after := Reencrypt(old(View()), host, nonces, now);
        if after.Err? then r == Err(after.error) && View() == old(View())
        else
          && View() == after.value
          && var fp := host.fingerprint(ActiveRootKey(old(slots), host).value);
             r == Ok(RotationResult(fp, None, |Legacy(old(View()), fp)|, 0))
    {
      var active := ActiveRootKey(slots, host);
      if active.Err? {
        return Err(active.error);
      }
      var activeFp := host.fingerprint(active.value);
      var root := if host.rootKey.Some? then host.rootKey.value else active.value;
      var before := View();
      var rows := Legacy(before, activeFp);
      var readable, count := RewriteAll(before, host, root, active.value, rows, nonces, now);
      if !readable {
        envelopes := before.envelopes;
        return Err(DecryptFailed);
      }
      return Ok(RotationResult(activeFp, None, count, 0));
    }

    /** The rows in `done` all opened and have been rewritten; nothing else has changed since `before`. */
    ghost predicate Rewrote(before: Db, host: Host, root: Key, key: Key, done: set<string>, nonces: string -> int, now: int)
      reads this
    {
      && AllOpen(before, host, root, done)
      && slots == before.slots && envelopes == RewriteRows(before, host, root, key, done, nonces, now)
    }

    /** The loop over the legacy rows; it stops at the first row that does not open. */
    method RewriteAll(
      ghost before: Db, host: Host, root: Key, key: Key, rows: set<string>, nonces: string -> int, now: int)
      returns (readable: bool, count: nat)
      requires slots == before.slots && envelopes == before.envelopes
      requires rows <= before.envelopes.Keys
      modifies this`envelopes
      ensures readable == AllOpen(before, host, root, rows)
      ensures readable ==> count == |rows| && envelopes == RewriteRows(before, host, root, key, rows, nonces, now)
    {
      var todo := rows;
      ghost var done := {};
      count := 0;
      RewriteNone(before, host, root, key, nonces, now);
      while todo != {}
        invariant todo <= rows && done == rows - todo && count + |todo| == |rows|
        invariant Rewrote(before, host, root, key, done, nonces, now)
        decreases |todo|
      {
        var id :| id in todo;
        var rewritten := RewriteRow(before, host, root, key, done, id, nonces, now);
        if !rewritten {
          return false, count;
        }
        todo, done := todo - {id}, done + {id};
        count := count + 1;
      }
      assert done == rows;
      return true, count;
    }

    method RewriteRow(
      ghost before: Db, host: Host, root: Key, key: Key, ghost done: set<string>, id: string, nonces: string -> int, now: int)
      returns (readable: bool)
      requires Rewrote(before, host, root, key, done, nonces, now) && id in before.envelopes && id !in done
      modifies this`envelopes
      ensures readable == Readable(before, host, root, id)
      ensures readable ==> Rewrote(before, host, root, key, done + {id}, nonces, now)
    {
      RewriteUntouched(before, host, root, key, done, id, nonces, now);
      var plaintext := CipherOpen(slots, host, root, envelopes[id]);
      if plaintext.None? {
        return false;
      }
      RewriteOneMore(before, host, root, key, done, id, nonces, now);
      envelopes := envelopes[id := Rewritten(envelopes[id], plaintext.value, host, key, nonces(id), now)];
      return true;
    }

    method FinalizeRotation(host: Host, finalizeNow: bool, now: int) returns (r: Result<RotationResult, RotationError>)
      requires AtMostOneActive(slots)
      modifies this
      ensures var after := Finalize(old(View()), host, finalizeNow, now);
        if after.Err? then r == Err(after.error) && View() == old(View())
        else
          && View() == after.value
          && var fp := host.fingerprint(ActiveRootKey(old(slots), host).value);
             r == Ok(RotationResult(fp, None, 0, |old(slots).Keys - slots.Keys|))
    {
      var active := ActiveRootKey(slots, host);
      if active.Err? {
        return Err(active.error);
      }
      var before := View();
      var idle, purged := PurgeIdle(slots.Keys - Active(slots), finalizeNow, now);
      if !idle {
        slots := before.slots;
        return Err(StillPending);
      }
      assert before.slots.Keys - slots.Keys == DueSlots(before.slots, finalizeNow, now);
      return Ok(RotationResult(host.fingerprint(active.value), None, 0, purged));
    }

    /** The loop over the retired slots; it stops at the first one that an envelope still uses. */
    method PurgeIdle(retired: set<Fingerprint>, finalizeNow: bool, now: int) returns (idle: bool, purged: nat)
      requires forall f :: f in retired <==> f in slots && !slots[f].isActive
      modifies this`slots
      ensures idle == forall f :: f in retired ==> !Pending(envelopes, f)
      ensures var due := DueSlots(old(slots), finalizeNow, now);
        idle ==> slots == old(slots) - due && purged == |due|
    {
      var todo := retired;
      ghost var due := DueSlots(slots, finalizeNow, now);
      purged := 0;
      while todo != {}
        invariant todo <= retired
        invariant forall f :: f in retired - todo ==> !Pending(envelopes, f)
        invariant slots == old(slots) - (due - todo) && purged == |due - todo|
        decreases |todo|
      {
        var f :| f in todo;
        if Pending(envelopes, f) {
          return false, purged;
        }
        if Purgeable(slots[f], finalizeNow, now) {
          assert due - (todo - {f}) == (due - todo) + {f};
          slots := slots - {f};
          purged := purged + 1;
        } else {
          assert due - (todo - {f}) == due - todo;
        }
        todo := todo - {f};
      }
      assert due - todo == due;
      return true, purged;
    }

    /** A service process on the configured key stores a new secret. */
    method StoreSecret(host: Host, id: string, purpose: string, plaintext: string, nonce: int)
      returns (r: Result<string, RotationError>)
      requires id !in envelopes
      modifies this
      ensures if host.rootKey.None? then r.Err? && View() == old(View())
        else
          && View() == old(View()).(envelopes := old(envelopes)[id := Stored(host, host.rootKey.value, purpose, plaintext, nonce)])
          && r == Ok(id)
    {
      if host.rootKey.None? {
        return Err(RootKeyMissing);
      }
      envelopes := envelopes[id := Stored(host, host.rootKey.value, purpose, plaintext, nonce)];
      return Ok(id);
    }
  }
}
