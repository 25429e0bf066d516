/**
 * The custom user model (CustomUser) and the table that stores it.
 *
 * A `Row` is one stored record; `Store` is the table, keyed by email, the login identifier,
 * with the uniqueness constraints the columns declare; `User` is an instance loaded from the
 * table, whose methods change its own fields and then write it back with `Save`.
 */
module Models {
  import opened Wrappers
  import opened Errors
  import opened Decimal

  /** One stored user. `password` holds a hash, never the plain text; time stamps are integer seconds. */
  datatype Row = Row(
    id: nat,
    username: string,
    email: string,
    phoneNumber: Option<string>,
    fullName: Option<string>,
    password: string,
    passwordConfirmation: Option<string>,
    resetOtp: Option<string>,
    otpCreatedAt: Option<int>)

  /** The user table, keyed by email (USERNAME_FIELD). */
  type Table = map<string, Row>

  /** A code is accepted for ten minutes after it was stored. */
  const OtpValiditySeconds: int := 10 * 60

  /** The `reset_otp` column is declared with `max_length=6`. */
  const OtpMaxLength: nat := 6

  /** Two rows that may live side by side: distinct primary key, username, and phone number when one is set. */
  predicate SharesNoIdentity(a: Row, b: Row)
  {
    a.id != b.id && a.username != b.username && (a.phoneNumber.None? || a.phoneNumber != b.phoneNumber)
  }

  predicate KeyedByEmail(rows: Table)
  {
    forall e | e in rows :: rows[e].email == e
  }

  predicate IdsBelow(rows: Table, nextId: nat)
  {
    forall e | e in rows :: rows[e].id < nextId
  }

  predicate UniqueIdentities(rows: Table)
  {
    forall e1, e2 | e1 in rows && e2 in rows && e1 != e2 :: SharesNoIdentity(rows[e1], rows[e2])
  }

  /** What the table's constraints guarantee of its contents. */
  predicate Consistent(rows: Table, nextId: nat)
  {
    KeyedByEmail(rows) && IdsBelow(rows, nextId) && UniqueIdentities(rows)
  }

  /** Writing `r` under its email breaks no uniqueness constraint against the other rows. */
  predicate Admissible(rows: Table, r: Row)
  {
    forall e | e in rows && e != r.email :: SharesNoIdentity(rows[e], r)
  }

  /**
   * The guard of CustomUser.save, with Python truthiness (an empty string and None are false):
   * saving is refused only when both values are non-empty and differ.
   */
  predicate SaveAllowed(password: string, confirmation: Option<string>)
  {
    !(password != "" && confirmation.Some? && confirmation.value != "" && password != confirmation.value)
  }

  /** The columns a user is known by; no operation of the backend changes them. */
  predicate SameIdentity(a: Row, b: Row)
  {
    a.id == b.id && a.username == b.username && a.email == b.email
    && a.phoneNumber == b.phoneNumber && a.fullName == b.fullName
  }

  /** The row once a code has been stored: code and time stamp are set together. */
  function WithOtp(r: Row, code: string, now: int): (issued: Row)
  {
    r.(resetOtp := Some(code), otpCreatedAt := Some(now))
  }

  /** The row once a reset has been completed: new hash, both code columns cleared. */
  function Consumed(r: Row, passwordHash: string): (cleared: Row)
  {
    r.(password := passwordHash, resetOtp := None, otpCreatedAt := None)
  }

  /** Both code columns are null or both are set, and a set code has the generator's shape. */
  predicate OtpStateOk(r: Row)
  {
    (r.resetOtp.Some? <==> r.otpCreatedAt.Some?) && (r.resetOtp.Some? ==> IsOtpCode(r.resetOtp.value))
  }

  predicate OtpWellFormed(rows: Table)
  {
    forall e | e in rows :: OtpStateOk(rows[e])
  }

  /** No two users share an email, a username, a primary key, or a phone number that is set. */
  lemma ConsistentMeansUnique(rows: Table, nextId: nat, e1: string, e2: string)
    requires Consistent(rows, nextId) && e1 in rows && e2 in rows && e1 != e2
    ensures rows[e1].email != rows[e2].email
    ensures rows[e1].id != rows[e2].id && rows[e1].username != rows[e2].username
    ensures rows[e1].phoneNumber.Some? ==> rows[e1].phoneNumber != rows[e2].phoneNumber
  {
  }

  /** Rewriting a row without touching its identity columns never breaks a constraint. */
  lemma SameIdentityAdmissible(rows: Table, r: Row)
    requires KeyedByEmail(rows) && UniqueIdentities(rows)
    requires r.email in rows && SameIdentity(rows[r.email], r)
    ensures Admissible(rows, r)
  {
  }

  /** A well-formed stored code fits its column. */
  lemma StoredOtpFitsColumn(rows: Table, e: string)
    requires OtpWellFormed(rows) && e in rows && rows[e].resetOtp.Some?
    ensures |rows[e].resetOtp.value| <= OtpMaxLength
  {
  }

  /** The user table and its uniqueness constraints (primary key, email, username, phone number). */
  class Store {
    var rows: Table
    var nextId: nat

    ghost predicate Valid()
      reads this
    {
      Consistent(rows, nextId)
    }

    constructor ()
      ensures Valid() && rows == map[] && nextId == 1
    {
      rows := map[];
      nextId := 1;
    }

    /** INSERT: the table assigns the next primary key; a row that clashes with another is refused. */
    method Insert(r: Row) returns (ok: bool, id: nat)
      requires Valid()
      modifies this
      ensures Valid()
      ensures id == old(nextId)
      ensures ok == (r.email !in old(rows) && Admissible(old(rows), r.(id := id)))
      ensures rows == (if ok then old(rows)[r.email := r.(id := id)] else old(rows))
      ensures nextId == (if ok then old(nextId) + 1 else old(nextId))
    {
      id := nextId;
      var row := r.(id := id);
      ok := r.email !in rows && Admissible(rows, row);
      if ok {
        rows := rows[r.email := row];
        nextId := nextId + 1;
      }
    }

    /** UPDATE of the row with the same key; a row that clashes with another is refused. */
    method Update(r: Row) returns (ok: bool)
      requires Valid() && r.email in rows && rows[r.email].id == r.id
      modifies this
      ensures Valid() && nextId == old(nextId)
      ensures ok == Admissible(old(rows), r)
      ensures rows == (if ok then old(rows)[r.email := r] else old(rows))
    {
      ok := Admissible(rows, r);
      if ok {
        rows := rows[r.email := r];
      }
    }
  }

  /** A CustomUser instance: a copy of one row, changed in memory and written back by Save. */
  class User {
    const id: nat
    const username: string
    const email: string
    const phoneNumber: Option<string>
    const fullName: Option<string>
    var password: string
    var passwordConfirmation: Option<string>
    var resetOtp: Option<string>
    var otpCreatedAt: Option<int>

    /** `CustomUser.objects.get(email=...)`: an instance holding the row's values. */
    constructor Load(r: Row)
      ensures Snapshot() == r
    {
      id, username, email, phoneNumber, fullName := r.id, r.username, r.email, r.phoneNumber, r.fullName;
      password, passwordConfirmation := r.password, r.passwordConfirmation;
      resetOtp, otpCreatedAt := r.resetOtp, r.otpCreatedAt;
    }

    /** The row this instance would write. */
    function Snapshot(): (r: Row)
      reads this
    {
      Row(id, username, email, phoneNumber, fullName, password, passwordConfirmation, resetOtp, otpCreatedAt)
    }

    /** The instance's row is in the table under the same primary key. */
    predicate StoredIn(db: Store)
      reads db
    {
      email in db.rows && db.rows[email].id == id
    }

    /** `set_password`: only the hash is kept. */
    method SetPassword(raw: string, hash: string -> string)
      modifies this`password
      ensures password == hash(raw)
    {
      password := hash(raw);
    }

    /** `save`: the confirmation guard, then the write, which the table may refuse. */
    method Save(db: Store) returns (res: Outcome<Error>)
      requires db.Valid() && StoredIn(db)
      modifies db
      ensures db.Valid() && db.nextId == old(db.nextId)
      ensures res == (if !SaveAllowed(password, passwordConfirmation) then Fail(PasswordConfirmationMismatch)
                      else if !Admissible(old(db.rows), Snapshot()) then Fail(IntegrityError)
                      else Pass)
      ensures db.rows == (if res.Pass? then old(db.rows)[email := Snapshot()] else old(db.rows))
    {
      if !SaveAllowed(password, passwordConfirmation) {
        return Fail(PasswordConfirmationMismatch);
      }
      var ok := db.Update(Snapshot());
      res := if ok then Pass else Fail(IntegrityError);
    }

    /**
     * `generate_otp`: store the text of a draw from [OtpLow, OtpHigh] and the current time,
     * replacing whatever code was there, then save.
     */
    method GenerateOtp(code: nat, now: int, db: Store) returns (res: Outcome<Error>)
      requires OtpLow <= code <= OtpHigh
      requires db.Valid() && StoredIn(db)
      modifies this`resetOtp, this`otpCreatedAt, db
      ensures Snapshot() == WithOtp(old(Snapshot()), DecimalString(code), now)
      ensures OtpStateOk(Snapshot())
      ensures db.Valid() && db.nextId == old(db.nextId)
      ensures res == (if !SaveAllowed(password, passwordConfirmation) then Fail(PasswordConfirmationMismatch)
                      else if !Admissible(old(db.rows), Snapshot()) then Fail(IntegrityError)
                      else Pass)
      ensures db.rows == (if res.Pass? then old(db.rows)[email := Snapshot()] else old(db.rows))
    {
      DrawIsOtpCode(code);
      resetOtp := Some(DecimalString(code));
      otpCreatedAt := Some(now);
      res := Save(db);
    }
  }
}
