/**
 * The credential store of Licenta_aut_v2.py: the `Users` table (line 195-199,
 * username UNIQUE) and the bcrypt hashing used by `_register_user` and
 * `_authenticate_user` (lines 210-258).
 *
 * bcrypt is abstract: its one-way digest is any function `Digest` the caller
 * supplies, so everything proved here holds for every such function. As in
 * bcrypt, a stored hash carries the salt it was made with, and checking a
 * password recomputes the digest with that salt.
 */
module Credentials {
  import opened Wrappers

  type Salt = string

  /** bcrypt's digest of a password under a salt; left abstract. */
  type Digest = (string, Salt) -> string

  /** A stored `PasswordHash`: the salt and the digest together, as a bcrypt hash string holds them. */
  datatype PasswordHash = PasswordHash(salt: Salt, checksum: string)

  /** The records of the `Users` table, by username. */
  type Users = map<string, PasswordHash>

  /** How the database behaves during one operation. */
  datatype Connection =
    | Connected       // the connection opens and the statement runs
    | NoConnection    // `_get_db_connection` returns None
    | StatementError  // the statement raises a `pyodbc.Error` of another kind than a constraint violation

  /** What the `INSERT` of a record does (lines 218-225). */
  datatype InsertOutcome = Inserted | DuplicateUsername | UsernameTooLong

  /** `Username NVARCHAR(50)` (line 197). */
  const MaxUsernameLength: nat := 50

  /** The length of a string in UTF-16 code units, the unit of an NVARCHAR length. */
  function Utf16Length(s: string): (n: nat)
    ensures |s| <= n <= 2 * |s|
  {
    if s == [] then 0 else (if s[0] as int > 0xFFFF then 2 else 1) + Utf16Length(s[1..])
  }

  /** `bcrypt.hashpw(password, salt)`. */
  function HashPw(digest: Digest, password: string, salt: Salt): (h: PasswordHash)
    ensures h.salt == salt
    ensures CheckPw(digest, password, h)
  {
    PasswordHash(salt, digest(password, salt))
  }

  /** `bcrypt.checkpw(password, stored)`: the digest of the password under the stored salt is the stored one. */
  predicate CheckPw(digest: Digest, password: string, stored: PasswordHash): (ok: bool)
    ensures ok <==> stored == PasswordHash(stored.salt, digest(password, stored.salt))
  {
    digest(password, stored.salt) == stored.checksum
  }

  /**
   * An idealisation of bcrypt: no two passwords share a digest under one salt.
   * Real bcrypt only reads the first 72 bytes of a password, so this does not
   * hold of it for longer passwords (see the 72-byte password limit in README).
   */
  ghost predicate CollisionFree(digest: Digest) {
    forall p, q, s :: p != q ==> digest(p, s) != digest(q, s)
  }

  /** The outcome of inserting a record for `username` into `users`. */
  function InsertOutcomeFor(users: Users, username: string): (outcome: InsertOutcome)
    ensures outcome == Inserted <==> Utf16Length(username) <= MaxUsernameLength && username !in users
    ensures outcome == DuplicateUsername ==> username in users
  {
    if Utf16Length(username) > MaxUsernameLength then UsernameTooLong
    else if username in users then DuplicateUsername
    else Inserted
  }

  /** Whether `_register_user` returns True. */
  predicate RegisterSucceeds(users: Users, username: string, connection: Connection): (ok: bool)
    ensures ok <==> connection == Connected && username !in users && Utf16Length(username) <= MaxUsernameLength
  {
    connection == Connected && InsertOutcomeFor(users, username) == Inserted
  }

  /** The table after `_register_user(username, password)` with the given salt. */
  function AfterRegister(users: Users, digest: Digest, username: string, password: string,
                         salt: Salt, connection: Connection): (after: Users)
    ensures forall u :: u in users ==> u in after && after[u] == users[u]
    ensures forall u :: u in after && u !in users ==> u == username && after[u] == HashPw(digest, password, salt)
  {
    if RegisterSucceeds(users, username, connection) then users[username := HashPw(digest, password, salt)]
    else users
  }

  /** Whether `_authenticate_user` returns True. */
  predicate AuthenticateSucceeds(users: Users, digest: Digest, username: string, password: string,
                                 connection: Connection): (ok: bool)
    ensures ok ==> connection == Connected && username in users
    ensures ok <==> connection == Connected && username in users
                    && users[username] == HashPw(digest, password, users[username].salt)
  {
    connection == Connected && username in users && CheckPw(digest, password, users[username])
  }

  /** A registration that succeeds adds exactly one record, for its username; one that fails adds none. */
  lemma RegisterAddsOneRecord(users: Users, digest: Digest, username: string, password: string,
                              salt: Salt, connection: Connection)
    ensures var after := AfterRegister(users, digest, username, password, salt, connection);
            if RegisterSucceeds(users, username, connection) then
              after.Keys == users.Keys + {username} && |after| == |users| + 1
            else
              after == users
  {
  }

  /** Registering a name already taken fails and leaves its stored hash as it was. */
  lemma DuplicateRegistrationFails(users: Users, digest: Digest, username: string, password: string,
                                   salt: Salt, connection: Connection)
    requires username in users
    ensures !RegisterSucceeds(users, username, connection)
    ensures AfterRegister(users, digest, username, password, salt, connection)[username] == users[username]
  {
  }

  /** Registration says nothing new about any other user. */
  lemma RegisterKeepsOtherUsers(users: Users, digest: Digest, username: string, password: string,
                                salt: Salt, connection: Connection, other: string, otherPassword: string,
                                later: Connection)
    requires other != username
    ensures AuthenticateSucceeds(AfterRegister(users, digest, username, password, salt, connection),
                                 digest, other, otherPassword, later)
            == AuthenticateSucceeds(users, digest, other, otherPassword, later)
  {
  }

  /** After a successful registration the same name and password log in. */
  lemma RegisteredUserAuthenticates(users: Users, digest: Digest, username: string, password: string,
                                    salt: Salt)
    requires RegisterSucceeds(users, username, Connected)
    ensures AuthenticateSucceeds(AfterRegister(users, digest, username, password, salt, Connected),
                                 digest, username, password, Connected)
  {
  }

  /** With a collision-free digest, after registration any other password is refused. */
  lemma OtherPasswordRefused(users: Users, digest: Digest, username: string, password: string,
                             salt: Salt, wrong: string, later: Connection)
    requires CollisionFree(digest)
    requires RegisterSucceeds(users, username, Connected)
    requires wrong != password
    ensures !AuthenticateSucceeds(AfterRegister(users, digest, username, password, salt, Connected),
                                  digest, username, wrong, later)
  {
    assert digest(wrong, salt) != digest(password, salt);
  }

  /** An unknown username never authenticates, whatever the password. */
  lemma UnknownUserRefused(users: Users, digest: Digest, username: string, password: string,
                           connection: Connection)
    requires username !in users
    ensures !AuthenticateSucceeds(users, digest, username, password, connection)
  {
  }

  /**
   * Two users registered with the same password under different salts get
   * different stored hashes, and each still logs in with that password.
   */
  lemma SaltsSeparateEqualPasswords(users: Users, digest: Digest, u1: string, u2: string, password: string,
                                    s1: Salt, s2: Salt)
    requires u1 != u2 && s1 != s2
    requires RegisterSucceeds(users, u1, Connected)
    requires RegisterSucceeds(AfterRegister(users, digest, u1, password, s1, Connected), u2, Connected)
    ensures var after := AfterRegister(AfterRegister(users, digest, u1, password, s1, Connected),
                                       digest, u2, password, s2, Connected);
            && after[u1] != after[u2]
            && AuthenticateSucceeds(after, digest, u1, password, Connected)
            && AuthenticateSucceeds(after, digest, u2, password, Connected)
  {
  }

  /** The `Users` table: the database's side of the store, with the UNIQUE username constraint. */
  class UsersTable {
    var rows: Users

    /** An empty table, as `_create_user_table_if_not_exists` leaves a new one. */
    constructor ()
      ensures rows == map[]
    {
      rows := map[];
    }

    /** `Lookup` gives the stored hash of a user, or None when there is no such row. */
    function Lookup(username: string): (r: Option<PasswordHash>)
      reads this
      ensures r.Some? <==> username in rows
      ensures r.Some? ==> r.value == rows[username]
    {
      if username in rows then Some(rows[username]) else None
    }

    /**
     * `INSERT INTO Users (Username, PasswordHash) VALUES (?, ?)`: rejected
     * when the name is longer than the column or already present; otherwise
     * the one new row is added.
     */
    method Insert(username: string, hash: PasswordHash) returns (outcome: InsertOutcome)
      modifies this
      ensures outcome == InsertOutcomeFor(old(rows), username)
      ensures rows == if outcome == Inserted then old(rows)[username := hash] else old(rows)
    {
      if Utf16Length(username) > MaxUsernameLength {
        outcome := UsernameTooLong;
      } else if username in rows {
        outcome := DuplicateUsername;
      } else {
        rows := rows[username := hash];
        outcome := Inserted;
      }
    }
  }
}
