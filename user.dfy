/**
 * The credential state of a user (src/db/models/user.rs): the TOTP flag and
 * secret, the recovery codes, and the rule that decides whether any MFA
 * factor is on.
 *
 * The database behind the connection pool is an object holding the stored
 * user rows (their credential columns only), the wallets and the WebAuthn
 * security keys. Each UPDATE of a user row rewrites that row when it exists
 * and does nothing otherwise.
 */
module Users {
  import opened Wrappers
  import opened Charset
  import Base32

  /** Number of recovery codes issued when MFA is enabled. */
  const RECOVERY_CODES_COUNT: nat := 8

  /** Length of one recovery code. */
  const RECOVERY_CODE_LENGTH: nat := 16

  /** Length in bytes of a TOTP secret. */
  const TOTP_SECRET_LENGTH: nat := 20

  type U32 = x: int | 0 <= x < 0x1_0000_0000

  /** The advisory MFA method of a user; `NoMfa` is the source's `None`. */
  datatype MfaMethod = NoMfa | OneTimePassword | WebAuthn | Web3

  /** The error a query that must return one row reports when there is none. */
  datatype StoreError = RowNotFound

  /** The credential columns of a stored `user` row. */
  datatype UserRow = UserRow(totpEnabled: bool, totpSecret: Option<seq<bv8>>, recoveryCodes: seq<string>)

  /** A row of the `wallet` table. */
  datatype Wallet = Wallet(userId: int, address: string, useForMfa: bool)

  /** A row of the `webauthn` table: a registered security key. */
  datatype SecurityKey = SecurityKey(id: int, userId: int, name: string)

  class Database {
    var users: map<int, UserRow>
    var wallets: seq<Wallet>
    var webauthn: seq<SecurityKey>

    constructor (users: map<int, UserRow>, wallets: seq<Wallet>, webauthn: seq<SecurityKey>)
      ensures this.users == users && this.wallets == wallets && this.webauthn == webauthn
    {
      this.users, this.wallets, this.webauthn := users, wallets, webauthn;
    }
  }

  /** The user table after storing `codes` as the recovery codes of `id`. */
  function WriteCodes(users: map<int, UserRow>, id: Option<int>, codes: seq<string>): (r: map<int, UserRow>)
    ensures r.Keys == users.Keys
    ensures id.Some? && id.value in users ==> r[id.value] == users[id.value].(recoveryCodes := codes)
    ensures forall k :: k in users && (id.None? || k != id.value) ==> r[k] == users[k]
  {
    if id.Some? && id.value in users then users[id.value := users[id.value].(recoveryCodes := codes)] else users
  }

  /** The user table after storing `secret` as the TOTP secret of `id`. */
  function WriteSecret(users: map<int, UserRow>, id: Option<int>, secret: Option<seq<bv8>>): (r: map<int, UserRow>)
    ensures r.Keys == users.Keys
    ensures id.Some? && id.value in users ==> r[id.value] == users[id.value].(totpSecret := secret)
    ensures forall k :: k in users && (id.None? || k != id.value) ==> r[k] == users[k]
  {
    if id.Some? && id.value in users then users[id.value := users[id.value].(totpSecret := secret)] else users
  }

  /** The user table after storing `enabled` as the TOTP flag of `id`. */
  function WriteTotpEnabled(users: map<int, UserRow>, id: Option<int>, enabled: bool): (r: map<int, UserRow>)
    ensures r.Keys == users.Keys
    ensures id.Some? && id.value in users ==> r[id.value] == users[id.value].(totpEnabled := enabled)
    ensures forall k :: k in users && (id.None? || k != id.value) ==> r[k] == users[k]
  {
    if id.Some? && id.value in users then users[id.value := users[id.value].(totpEnabled := enabled)] else users
  }

  /** Whether some wallet of `userId` is flagged for MFA: `bool_or(use_for_mfa)`, false when there is none. */
  function AnyMfaWallet(wallets: seq<Wallet>, userId: int): (r: bool)
    ensures r <==> exists w :: w in wallets && w.userId == userId && w.useForMfa
    decreases |wallets|
  {
    if wallets == [] then false
    else (wallets[0].userId == userId && wallets[0].useForMfa) || AnyMfaWallet(wallets[1..], userId)
  }

  /**
   * The number of security keys of `userId`. The query counts `webauthn.id`
   * over the join with the wallets, which multiplies this by the number of
   * wallets (at least one row); the two are positive together, which is all
   * the query uses.
   */
  function KeyCount(keys: seq<SecurityKey>, userId: int): (n: nat)
    ensures n <= |keys|
    ensures n > 0 <==> exists k :: k in keys && k.userId == userId
    decreases |keys|
  {
    if keys == [] then 0
    else (if keys[0].userId == userId then 1 else 0) + KeyCount(keys[1..], userId)
  }

  /**
   * The reference definition of "a stored user has an MFA factor": its stored
   * TOTP flag is on, or one of its wallets is flagged for MFA, or it has a
   * security key.
   */
  ghost predicate HasStoredFactor(users: map<int, UserRow>, wallets: seq<Wallet>, keys: seq<SecurityKey>, userId: int) {
    userId in users &&
    (users[userId].totpEnabled ||
     (exists w :: w in wallets && w.userId == userId && w.useForMfa) ||
     (exists k :: k in keys && k.userId == userId))
  }

  /** `Wallet::disable_mfa_for_user`: the wallets of `userId` lose their MFA flag, nothing else changes. */
  function ClearWalletMfa(wallets: seq<Wallet>, userId: int): (r: seq<Wallet>)
    ensures |r| == |wallets|
    ensures forall i :: 0 <= i < |r| && wallets[i].userId != userId ==> r[i] == wallets[i]
    ensures forall i :: 0 <= i < |r| && wallets[i].userId == userId ==> r[i] == wallets[i].(useForMfa := false)
    ensures !AnyMfaWallet(r, userId)
    decreases |wallets|
  {
    if wallets == [] then []
    else
      var w := wallets[0];
      [if w.userId == userId then w.(useForMfa := false) else w] + ClearWalletMfa(wallets[1..], userId)
  }

  /** `WebAuthn::delete_all_for_user`: exactly the keys of `userId` are removed. */
  function DropKeys(keys: seq<SecurityKey>, userId: int): (r: seq<SecurityKey>)
    ensures forall k :: k in r <==> k in keys && k.userId != userId
    ensures KeyCount(r, userId) == 0
    decreases |keys|
  {
    if keys == [] then []
    else if keys[0].userId == userId then DropKeys(keys[1..], userId)
    else [keys[0]] + DropKeys(keys[1..], userId)
  }

  /** The position of the first occurrence of `code` in `codes`. */
  method Position(codes: seq<string>, code: string) returns (index: Option<nat>)
    ensures index.None? <==> code !in codes
    ensures index.Some? ==> index.value < |codes| && codes[index.value] == code
    ensures index.Some? ==> forall j :: 0 <= j < index.value ==> codes[j] != code
  {
    var i := 0;
    while i < |codes|
      invariant 0 <= i <= |codes|
      invariant forall j :: 0 <= j < i ==> codes[j] != code
    {
      if codes[i] == code {
        return Some(i);
      }
      i := i + 1;
    }
    return None;
  }

  /**
   * Removes the element at `i` by moving the last element into its place, as
   * Rust's `Vec::swap_remove` does: exactly one occurrence of `s[i]` goes, and
   * every other element keeps its place except the last one.
   */
  function SwapRemove<T>(s: seq<T>, i: nat): (r: seq<T>)
    requires i < |s|
    ensures |r| == |s| - 1
    ensures multiset(r) + multiset{s[i]} == multiset(s)
    ensures i < |r| ==> r[i] == s[|s| - 1]
    ensures forall j :: 0 <= j < |r| && j != i ==> r[j] == s[j]
  {
    var last := |s| - 1;
    if i == last then
      assert s == s[..i] + [s[i]];
      s[..i]
    else
      SplitAround(s, i);
      s[..i] + [s[last]] + s[i + 1..last]
  }

  /** `s` is its prefix before `i`, then `s[i]`, the elements up to the last one, and the last one. */
  lemma SplitAround<T>(s: seq<T>, i: nat)
    requires i < |s| - 1
    ensures multiset(s) == multiset(s[..i]) + multiset{s[i]} + multiset(s[i + 1..|s| - 1]) + multiset{s[|s| - 1]}
  {
    var last := |s| - 1;
    assert s == s[..i] + s[i..];
    assert s[i..] == [s[i]] + s[i + 1..];
    assert s[i + 1..] == s[i + 1..last] + [s[last]];
  }

  class User {
    var id: Option<int>
    var username: string
    var passwordHash: string
    var lastName: string
    var firstName: string
    var email: string
    var phone: Option<string>
    var sshKey: Option<string>
    var pgpKey: Option<string>
    var pgpCertId: Option<string>
    /** The secret has been confirmed and TOTP can be used. */
    var totpEnabled: bool
    var totpSecret: Option<seq<bv8>>
    var mfaMethod: MfaMethod
    var recoveryCodes: seq<string>

    /**
     * A new, unsaved user without any MFA state. Password hashing is external:
     * `passwordHash` is the hash of the chosen password.
     */
    constructor (username: string, passwordHash: string, lastName: string, firstName: string,
                 email: string, phone: Option<string>)
      ensures id == None
      ensures this.username == username && this.passwordHash == passwordHash
      ensures this.lastName == lastName && this.firstName == firstName
      ensures this.email == email && this.phone == phone
      ensures sshKey == None && pgpKey == None && pgpCertId == None
      ensures !totpEnabled && totpSecret == None && mfaMethod == NoMfa && recoveryCodes == []
    {
      id := None;
      this.username := username;
      this.passwordHash := passwordHash;
      this.lastName := lastName;
      this.firstName := firstName;
      this.email := email;
      this.phone := phone;
      sshKey, pgpKey, pgpCertId := None, None, None;
      totpEnabled := false;
      totpSecret := None;
      mfaMethod := NoMfa;
      recoveryCodes := [];
    }

    /**
     * Whether any MFA factor is on: the in-memory TOTP flag short-cuts to yes;
     * an unsaved user has none otherwise; a saved user's answer comes from one
     * joined query over its stored row, wallets and security keys, and fails
     * when the row is missing.
     */
    function MfaEnabled(db: Database): (r: Result<bool, StoreError>)
      reads this, db
      ensures totpEnabled ==> r == Success(true)
      ensures !totpEnabled && id.None? ==> r == Success(false)
      ensures r.Failure? <==> !totpEnabled && id.Some? && id.value !in db.users
      ensures r.Success? ==>
        (r.value <==> totpEnabled || (id.Some? && HasStoredFactor(db.users, db.wallets, db.webauthn, id.value)))
    {
      if totpEnabled then Success(true)
      else
        match id
        case None => Success(false)
        case Some(uid) =>
          if uid in db.users then
            Success(db.users[uid].totpEnabled || AnyMfaWallet(db.wallets, uid) || KeyCount(db.webauthn, uid) > 0)
          else
            Failure(RowNotFound)
    }

    /**
     * Enables MFA: when a factor is already on, answers `None` and changes
     * nothing; otherwise replaces the recovery codes by the freshly generated
     * `codes`, stores them and returns them.
     */
    method EnableMfa(db: Database, codes: seq<string>) returns (r: Result<Option<seq<string>>, StoreError>)
      requires |codes| == RECOVERY_CODES_COUNT
      requires forall i :: 0 <= i < |codes| ==> IsAlphanumeric(codes[i], RECOVERY_CODE_LENGTH)
      modifies this`recoveryCodes, db`users
      ensures old(MfaEnabled(db)).Failure? ==>
        r == Failure(RowNotFound) && recoveryCodes == old(recoveryCodes) && db.users == old(db.users)
      ensures old(MfaEnabled(db)) == Success(true) ==>
        r == Success(None) && recoveryCodes == old(recoveryCodes) && db.users == old(db.users)
      ensures old(MfaEnabled(db)) == Success(false) ==>
        r == Success(Some(codes)) && recoveryCodes == codes && db.users == WriteCodes(old(db.users), id, codes)
      ensures r.Success? && r.value.Some? ==>
        && r.value.value == recoveryCodes
        && |recoveryCodes| == RECOVERY_CODES_COUNT
        && forall c :: c in recoveryCodes ==> IsAlphanumeric(c, RECOVERY_CODE_LENGTH)
    {
      var enabled := MfaEnabled(db);
      if enabled.Failure? {
        return Failure(enabled.error);
      }
      if enabled.value {
        return Success(None);
      }
      recoveryCodes := [];
      for i := 0 to RECOVERY_CODES_COUNT
        invariant recoveryCodes == codes[..i]
        invariant db.users == old(db.users)
      {
        recoveryCodes := recoveryCodes + [codes[i]];
      }
      assert recoveryCodes == codes;
      db.users := WriteCodes(db.users, id, recoveryCodes);
      r := Success(Some(recoveryCodes));
    }

    /**
     * Disables MFA: forgets the TOTP secret and the recovery codes, and for a
     * saved user also clears them in its row, clears the MFA flag of its
     * wallets and deletes its security keys. The TOTP flag is left as it is,
     * so afterwards only that flag can keep MFA on.
     */
    method DisableMfa(db: Database)
      modifies this`totpSecret, this`recoveryCodes, db
      ensures totpSecret == None && recoveryCodes == []
      ensures id.Some? ==>
        && db.users == WriteCodes(WriteSecret(old(db.users), id, None), id, [])
        && db.wallets == ClearWalletMfa(old(db.wallets), id.value)
        && db.webauthn == DropKeys(old(db.webauthn), id.value)
      ensures id.None? ==> db.users == old(db.users) && db.wallets == old(db.wallets) && db.webauthn == old(db.webauthn)
      ensures MfaEnabled(db).Success? ==>
        (MfaEnabled(db).value <==> totpEnabled || (id.Some? && db.users[id.value].totpEnabled))
    {
      if id.Some? {
        db.users := WriteCodes(WriteSecret(db.users, id, None), id, []);
        db.wallets := ClearWalletMfa(db.wallets, id.value);
        db.webauthn := DropKeys(db.webauthn, id.value);
      }
      totpSecret := None;
      recoveryCodes := [];
    }

    /**
     * Enables TOTP as written: when the flag is off, the stored flag is set,
     * but the in-memory flag is assigned `false` again, so it never changes.
     */
    method EnableTotp(db: Database)
      modifies this`totpEnabled, db`users
      ensures totpEnabled == old(totpEnabled)
      ensures !old(totpEnabled) ==> db.users == WriteTotpEnabled(old(db.users), id, true)
      ensures old(totpEnabled) ==> db.users == old(db.users)
    {
      if !totpEnabled {
        db.users := WriteTotpEnabled(db.users, id, true);
        totpEnabled := false;
      }
    }

    /** Enables TOTP as intended: afterwards the flag is on in memory and in the stored row. */
    method EnableTotpCorrected(db: Database)
      modifies this`totpEnabled, db`users
      ensures totpEnabled
      ensures !old(totpEnabled) ==> db.users == WriteTotpEnabled(old(db.users), id, true)
      ensures old(totpEnabled) ==> db.users == old(db.users)
      ensures !old(totpEnabled) && id.Some? && id.value in db.users ==> db.users[id.value].totpEnabled
    {
      if !totpEnabled {
        db.users := WriteTotpEnabled(db.users, id, true);
        totpEnabled := true;
      }
    }

    /**
     * Disables TOTP as written: when the flag is on, the in-memory flag and
     * secret are cleared and the user's security keys are deleted; the stored
     * row only gets its flag cleared, because its UPDATE assigns the flag the
     * value of `FALSE AND totp_secret = NULL`, which is false, and leaves the
     * stored secret in place.
     */
    method DisableTotp(db: Database)
      modifies this`totpEnabled, this`totpSecret, db`users, db`webauthn
      ensures !totpEnabled
      ensures !old(totpEnabled) ==>
        totpSecret == old(totpSecret) && db.users == old(db.users) && db.webauthn == old(db.webauthn)
      ensures old(totpEnabled) ==> totpSecret == None
      ensures old(totpEnabled) && id.Some? ==>
        db.users == WriteTotpEnabled(old(db.users), id, false) && db.webauthn == DropKeys(old(db.webauthn), id.value)
      ensures old(totpEnabled) && id.None? ==> db.users == old(db.users) && db.webauthn == old(db.webauthn)
    {
      if totpEnabled {
        if id.Some? {
          db.users := WriteTotpEnabled(db.users, id, false);
          db.webauthn := DropKeys(db.webauthn, id.value);
        }
        totpEnabled := false;
        totpSecret := None;
      }
    }

    /**
     * Disables TOTP as intended: the stored secret is discarded together with
     * the in-memory one, so the stored row agrees with the object afterwards.
     */
    method DisableTotpCorrected(db: Database)
      modifies this`totpEnabled, this`totpSecret, db`users, db`webauthn
      ensures !totpEnabled
      ensures !old(totpEnabled) ==>
        totpSecret == old(totpSecret) && db.users == old(db.users) && db.webauthn == old(db.webauthn)
      ensures old(totpEnabled) ==> totpSecret == None
      ensures old(totpEnabled) && id.Some? ==>
        && db.users == WriteSecret(WriteTotpEnabled(old(db.users), id, false), id, None)
        && db.webauthn == DropKeys(old(db.webauthn), id.value)
      ensures old(totpEnabled) && id.Some? && id.value in db.users ==>
        db.users[id.value].totpSecret == totpSecret && db.users[id.value].totpEnabled == totpEnabled
    {
      if totpEnabled {
        if id.Some? {
          db.users := WriteSecret(WriteTotpEnabled(db.users, id, false), id, None);
          db.webauthn := DropKeys(db.webauthn, id.value);
        }
        totpEnabled := false;
        totpSecret := None;
      }
    }

    /**
     * Installs the freshly generated `secret` as the TOTP secret, in memory and
     * in the stored row, without touching the TOTP flag, and returns its base
     * 32 text, which decodes back to the secret.
     */
    method NewSecret(db: Database, secret: seq<bv8>) returns (encoded: string)
      requires |secret| == TOTP_SECRET_LENGTH
      modifies this`totpSecret, db`users
      ensures totpSecret == Some(secret) && totpEnabled == old(totpEnabled)
      ensures db.users == WriteSecret(old(db.users), id, Some(secret))
      ensures |encoded| == 32 && Base32.Decode(encoded) == Some(secret)
    {
      db.users := WriteSecret(db.users, id, Some(secret));
      encoded := Base32.Encode(secret);
      Base32.DecodeEncode(secret);
      totpSecret := Some(secret);
    }

    /**
     * Checks a TOTP code as written: accepted exactly when a secret is present,
     * the clock (`unixTime`, seconds since the epoch; negative when the clock
     * is before it) can be read, and the external TOTP check `totpAccepts`
     * accepts the code for that secret and time. The TOTP flag is not
     * consulted.
     */
    function VerifyCode(code: U32, unixTime: int, totpAccepts: (seq<bv8>, U32, nat) -> bool): (ok: bool)
      reads this
      ensures totpSecret.None? || unixTime < 0 ==> !ok
      ensures totpSecret.Some? && unixTime >= 0 ==> (ok <==> totpAccepts(totpSecret.value, code, unixTime))
    {
      match totpSecret
      case Some(secret) => unixTime >= 0 && totpAccepts(secret, code, unixTime)
      case None => false
    }

    /** Checks a TOTP code as intended: a disabled TOTP accepts no code. */
    function VerifyCodeCorrected(code: U32, unixTime: int, totpAccepts: (seq<bv8>, U32, nat) -> bool): (ok: bool)
      reads this
      ensures !totpEnabled ==> !ok
      ensures ok ==> totpSecret.Some? && unixTime >= 0 && totpAccepts(totpSecret.value, code, unixTime)
      ensures totpEnabled ==> ok == VerifyCode(code, unixTime, totpAccepts)
    {
      totpEnabled && VerifyCode(code, unixTime, totpAccepts)
    }

    /**
     * Checks a recovery code: a code in the list is consumed (one occurrence
     * is removed, in memory and in the stored row) and accepted; any other
     * code is refused and nothing changes.
     */
    method VerifyRecoveryCode(db: Database, code: string) returns (ok: bool)
      modifies this`recoveryCodes, db`users
      ensures ok <==> code in old(recoveryCodes)
      ensures ok ==> |recoveryCodes| == |old(recoveryCodes)| - 1
      ensures ok ==> multiset(recoveryCodes) + multiset{code} == multiset(old(recoveryCodes))
      ensures ok ==> exists i ::
        && 0 <= i < |old(recoveryCodes)| && old(recoveryCodes)[i] == code
        && (forall j :: 0 <= j < i ==> old(recoveryCodes)[j] != code)
        && recoveryCodes == SwapRemove(old(recoveryCodes), i)
      ensures ok && multiset(old(recoveryCodes))[code] == 1 ==> code !in recoveryCodes
      ensures ok ==> db.users == WriteCodes(old(db.users), id, recoveryCodes)
      ensures !ok ==> recoveryCodes == old(recoveryCodes) && db.users == old(db.users)
    {
      var index := Position(recoveryCodes, code);
      if index.None? {
        return false;
      }
      recoveryCodes := SwapRemove(recoveryCodes, index.value);
      db.users := WriteCodes(db.users, id, recoveryCodes);
      ok := true;
    }
  }

  /** Removing the same element from two equal multisets leaves equal multisets. */
  lemma CancelOne<T>(a: multiset<T>, b: multiset<T>, x: T)
    requires a + multiset{x} == b + multiset{x}
    ensures a == b
  {
    forall y ensures a[y] == b[y] {
      assert (a + multiset{x})[y] == (b + multiset{x})[y];
    }
  }

  /**
   * The recovery-code walk-through of the user tests: enabling MFA for a new
   * user installs the eight codes, an unknown code is refused, and consuming
   * every issued code in turn succeeds each time and leaves no code behind.
   */
  method ConsumeEveryRecoveryCode(codes: seq<string>)
    returns (installed: nat, unknownAccepted: bool, allAccepted: bool, left: nat)
    requires |codes| == RECOVERY_CODES_COUNT
    requires forall i :: 0 <= i < |codes| ==> IsAlphanumeric(codes[i], RECOVERY_CODE_LENGTH)
    ensures installed == RECOVERY_CODES_COUNT
    ensures !unknownAccepted
    ensures allAccepted && left == 0
  {
    var db := new Database(map[], [], []);
    var user := new User("hpotter", "pass123-hash", "Potter", "Harry", "h.potter@hogwart.edu.uk", None);
    var enabled := user.EnableMfa(db, codes);
    installed := |user.recoveryCodes|;
    unknownAccepted := user.VerifyRecoveryCode(db, "invalid code");
    var issued := user.recoveryCodes;
    allAccepted := true;
    for i := 0 to |issued|
      invariant multiset(user.recoveryCodes) == multiset(issued[i..])
      invariant allAccepted
    {
      assert issued[i..] == [issued[i]] + issued[i + 1..];
      var ok := user.VerifyRecoveryCode(db, issued[i]);
      allAccepted := allAccepted && ok;
      CancelOne(multiset(user.recoveryCodes), multiset(issued[i + 1..]), issued[i]);
    }
    left := |user.recoveryCodes|;
  }

  /**
   * `EnableTotp` on a saved user with TOTP off stores the flag but leaves the
   * object's flag off. The MFA rule still reports MFA on, because it falls
   * through to the stored flag, while `DisableTotp` on the same object does
   * nothing, so the stored flag cannot be cleared through it.
   */
  method EnableTotpLeavesFlagOff()
    returns (inMemory: bool, stored: bool, mfaReported: Result<bool, StoreError>, storedAfterDisable: bool)
    ensures !inMemory && stored
    ensures mfaReported == Success(true)
    ensures storedAfterDisable
  {
    var db := new Database(map[1 := UserRow(false, None, [])], [], []);
    var user := new User("hpotter", "pass123-hash", "Potter", "Harry", "h.potter@hogwart.edu.uk", None);
    user.id := Some(1);
    user.EnableTotp(db);
    inMemory := user.totpEnabled;
    stored := db.users[1].totpEnabled;
    mfaReported := user.MfaEnabled(db);
    user.DisableTotp(db);
    storedAfterDisable := db.users[1].totpEnabled;
  }

  /**
   * `DisableTotp` on a saved user with TOTP on forgets the secret in memory
   * but leaves it in the stored row.
   */
  method DisableTotpKeepsStoredSecret(secret: seq<bv8>)
    returns (inMemory: Option<seq<bv8>>, stored: Option<seq<bv8>>)
    requires |secret| == TOTP_SECRET_LENGTH
    ensures inMemory == None && stored == Some(secret)
  {
    var db := new Database(map[1 := UserRow(true, None, [])], [], []);
    var user := new User("hpotter", "pass123-hash", "Potter", "Harry", "h.potter@hogwart.edu.uk", None);
    user.id := Some(1);
    user.totpEnabled := true;
    var encoded := user.NewSecret(db, secret);
    user.DisableTotp(db);
    inMemory := user.totpSecret;
    stored := db.users[1].totpSecret;
  }

  /**
   * A user who was given a secret but never enabled TOTP has a code accepted
   * by `VerifyCode` whenever the TOTP check accepts it; the corrected check
   * refuses it.
   */
  method VerifyCodeIgnoresTotpFlag(secret: seq<bv8>)
    returns (enabled: bool, accepted: bool, acceptedWhenCorrected: bool)
    requires |secret| == TOTP_SECRET_LENGTH
    ensures !enabled && accepted && !acceptedWhenCorrected
  {
    var db := new Database(map[], [], []);
    var user := new User("hpotter", "pass123-hash", "Potter", "Harry", "h.potter@hogwart.edu.uk", None);
    var encoded := user.NewSecret(db, secret);
    var totpAccepts := (key: seq<bv8>, code: U32, time: nat) => true;
    enabled := user.totpEnabled;
    accepted := user.VerifyCode(123456, 1700000000, totpAccepts);
    acceptedWhenCorrected := user.VerifyCodeCorrected(123456, 1700000000, totpAccepts);
  }
}
