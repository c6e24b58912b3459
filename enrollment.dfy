/**
 * Enrollment tokens: single-use bearer credentials that let a new user open a
 * short enrollment session (src/db/models/enrollment.rs).
 *
 * Time is a count of seconds passed in as `now`; every operation reads the
 * clock once. The `enrollment` table is an in-memory map from token id to row.
 */
module Enrollments {
  import opened Wrappers
  import opened Charset

  /** Length of a generated token id. */
  const TOKEN_ID_LENGTH: nat := 32

  /** Subject line of the enrollment-start mail. */
  const ENROLLMENT_START_MAIL_SUBJECT: string := "Defguard user enrollment"

  datatype EnrollmentError =
    | DbError
    | NotFound
    | TokenExpired
    | SessionExpired
    | TokenUsed
    | UserNotFound
    | AdminNotFound
    | AlreadyActive
    | NotificationError(reason: string)
    | WelcomeMsgNotConfigured
    | WelcomeEmailNotConfigured
  {
    /** The conditions under which a presented token is refused. */
    predicate IsTokenRejection() {
      NotFound? || TokenExpired? || SessionExpired? || TokenUsed?
    }
  }

  /** The gRPC status codes the errors are reported with. */
  datatype Code = Internal | Unauthenticated | InvalidArgument

  datatype Status = Status(code: Code, message: string)

  /**
   * The error-to-status conversion. All token rejections share one status, so
   * a caller cannot tell a missing token from an expired or spent one; every
   * error that is neither a rejection nor `AlreadyActive` is an opaque
   * internal error.
   */
  function ToStatus(err: EnrollmentError): (s: Status)
    ensures err.IsTokenRejection() <==> s == Status(Unauthenticated, "invalid token")
    ensures err.AlreadyActive? <==> s == Status(InvalidArgument, "already active")
    ensures s.code == Internal <==> !err.IsTokenRejection() && !err.AlreadyActive?
    ensures s.code == Internal ==> s.message == "unexpected error"
  {
    match err
    case DbError | AdminNotFound | UserNotFound | NotificationError(_)
      | WelcomeMsgNotConfigured | WelcomeEmailNotConfigured =>
      Status(Internal, "unexpected error")
    case NotFound | TokenExpired | SessionExpired | TokenUsed =>
      Status(Unauthenticated, "invalid token")
    case AlreadyActive =>
      Status(InvalidArgument, "already active")
  }

  /** One row of the `enrollment` table. */
  datatype Enrollment = Enrollment(
    id: string,
    userId: int,
    adminId: int,
    email: Option<string>,
    createdAt: int,
    expiresAt: int,
    usedAt: Option<int>)
  {
    /** The token's hard expiry lies strictly before `now`. */
    predicate IsExpired(now: int) {
      expiresAt < now
    }

    /** The token has been spent. */
    predicate IsUsed() {
      usedAt.Some?
    }

    /** The token has been spent and its session has not timed out yet. */
    predicate IsSessionValid(sessionTimeout: nat, now: int) {
      match usedAt
      case Some(t) => now < t + sessionTimeout
      case None => false
    }

    /** The token would be accepted by `start_session` at `now`. */
    predicate IsUsable(now: int) {
      !IsExpired(now) && !IsUsed()
    }
  }

  /**
   * A freshly minted token for `userId`, issued by `adminId` at `now`. The id
   * comes from the alphanumeric random generator.
   */
  function NewEnrollment(
    id: string, userId: int, adminId: int, email: Option<string>,
    tokenTimeout: nat, now: int): (e: Enrollment)
    requires IsAlphanumeric(id, TOKEN_ID_LENGTH)
    ensures e.id == id && |e.id| == TOKEN_ID_LENGTH
    ensures e.userId == userId && e.adminId == adminId && e.email == email
    ensures e.createdAt == now && e.expiresAt == e.createdAt + tokenTimeout
    ensures !e.IsUsed()
    ensures forall t :: now <= t ==> (e.IsUsable(t) <==> t <= now + tokenTimeout)
  {
    Enrollment(id, userId, adminId, email, now, now + tokenTimeout, None)
  }

  /**
   * Expiry is strict: a token is still unexpired at the instant of its expiry
   * and expired one second later.
   */
  lemma ExpiryBoundary(e: Enrollment)
    ensures !e.IsExpired(e.expiresAt) && e.IsExpired(e.expiresAt + 1)
  {
  }

  /** A spent token is never usable again, whatever the time. */
  lemma SpentNeverUsable(e: Enrollment, now: int)
    requires e.IsUsed()
    ensures e.usedAt.Some? && !e.IsUsable(now)
  {
  }

  /** Once expired, a token stays expired. */
  lemma ExpiryIsPermanent(e: Enrollment, t1: int, t2: int)
    requires t1 <= t2 && e.IsExpired(t1)
    ensures e.IsExpired(t2) && !e.IsUsable(t2)
  {
  }

  /**
   * A session is open only after the token was spent, and only during the
   * `sessionTimeout` seconds that follow the spend: open at a time means open
   * at every earlier time, so once closed it never reopens.
   */
  lemma SessionWindow(e: Enrollment, sessionTimeout: nat, t1: int, t2: int)
    requires t1 <= t2 && e.IsSessionValid(sessionTimeout, t2)
    ensures e.IsUsed() && !e.IsUsable(t1)
    ensures e.IsSessionValid(sessionTimeout, t1)
    ensures t2 < e.usedAt.value + sessionTimeout
  {
  }

  /** The ids of the unused tokens of one user. */
  function UnusedTokens(rows: map<string, Enrollment>, userId: int): set<string> {
    set k | k in rows && rows[k].userId == userId && !rows[k].IsUsed()
  }

  /** Every user has at most one unused token. */
  ghost predicate AtMostOneUnusedPerUser(rows: map<string, Enrollment>) {
    forall k1, k2 ::
      (k1 in rows && k2 in rows && rows[k1].userId == rows[k2].userId &&
       !rows[k1].IsUsed() && !rows[k2].IsUsed()) ==> k1 == k2
  }

  /** No spent token is removed and none becomes unspent again. */
  ghost predicate KeepsSpent(before: map<string, Enrollment>, after: map<string, Enrollment>) {
    forall k :: k in before && before[k].IsUsed() ==> k in after && after[k].IsUsed()
  }

  /**
   * The table after deleting the unused tokens of `userId`: exactly those rows
   * go, every other row stays as it was.
   */
  function PurgeUnused(rows: map<string, Enrollment>, userId: int): (r: map<string, Enrollment>)
    ensures forall k :: k in r <==> k in rows && !(rows[k].userId == userId && !rows[k].IsUsed())
    ensures forall k :: k in r ==> r[k] == rows[k]
    ensures UnusedTokens(r, userId) == {}
    ensures KeepsSpent(rows, r)
  {
    map k | k in rows && (rows[k].userId != userId || rows[k].IsUsed()) :: rows[k]
  }

  /** The table after stamping `usedAt := now` on the row with key `id`, if any. */
  function Stamp(rows: map<string, Enrollment>, id: string, now: int): (r: map<string, Enrollment>)
    ensures r.Keys == rows.Keys
    ensures id in rows ==> r[id].usedAt == Some(now) && r[id].IsUsed()
    ensures id in rows ==> r[id] == rows[id].(usedAt := Some(now))
    ensures forall k :: k in rows && k != id ==> r[k] == rows[k]
  {
    if id in rows then rows[id := rows[id].(usedAt := Some(now))] else rows
  }

  /** An enrollment-start mail handed to the mail queue; its body links to `tokenId`. */
  datatype Mail = Mail(to: string, subject: string, tokenId: string)

  /** The `enrollment` table. */
  class EnrollmentTable {
    var rows: map<string, Enrollment>

    /** Every row is stored under its own id (the primary key). */
    ghost predicate Valid()
      reads this
    {
      forall k :: k in rows ==> rows[k].id == k
    }

    constructor ()
      ensures Valid() && rows == map[]
    {
      rows := map[];
    }

    /** Looks a token up by id. */
    function FindById(id: string): (r: Result<Enrollment, EnrollmentError>)
      reads this
      ensures r.Success? <==> id in rows
      ensures r.Success? ==> r.value == rows[id]
      ensures r.Failure? ==> r.error == NotFound && ToStatus(r.error).code == Unauthenticated
      ensures Valid() && r.Success? ==> r.value.id == id
    {
      if id in rows then Success(rows[id]) else Failure(NotFound)
    }

    /** Inserts a new row; an id that is already taken violates the primary key. */
    method Save(e: Enrollment) returns (r: Outcome<EnrollmentError>)
      requires Valid()
      modifies this
      ensures Valid()
      ensures e.id in old(rows) ==> r == Fail(DbError) && rows == old(rows)
      ensures e.id !in old(rows) ==> r == Pass && rows == old(rows)[e.id := e]
    {
      if e.id in rows {
        return Fail(DbError);
      }
      rows := rows[e.id := e];
      r := Pass;
    }

    /**
     * Spends `token`: refuses an expired token first, then a used one, and
     * otherwise stamps `usedAt := now` on the token and on its row and returns
     * the session deadline. On refusal nothing changes.
     */
    method StartSession(token: Enrollment, sessionTimeout: nat, now: int)
      returns (r: Result<int, EnrollmentError>, spent: Enrollment)
      requires Valid()
      modifies this
      ensures Valid()
      ensures token.IsExpired(now) ==> r == Failure(TokenExpired)
      ensures !token.IsExpired(now) && token.IsUsed() ==> r == Failure(TokenUsed)
      ensures r.Success? <==> token.IsUsable(now)
      ensures r.Failure? ==> spent == token && rows == old(rows)
      ensures r.Success? ==> r.value == now + sessionTimeout && spent == token.(usedAt := Some(now))
      ensures r.Success? ==> rows == Stamp(old(rows), token.id, now)
      ensures r.Success? && token.id in old(rows) ==> rows[token.id] == old(rows)[token.id].(usedAt := Some(now))
      ensures r.Success? ==> spent.IsUsed() && forall t :: spent.IsSessionValid(sessionTimeout, t) <==> t < r.value
      ensures KeepsSpent(old(rows), rows)
      ensures AtMostOneUnusedPerUser(old(rows)) ==> AtMostOneUnusedPerUser(rows)
    {
      if token.IsExpired(now) {
        return Failure(TokenExpired), token;
      }
      if token.IsUsed() {
        return Failure(TokenUsed), token;
      }
      rows := Stamp(rows, token.id, now);
      spent := token.(usedAt := Some(now));
      r := Success(now + sessionTimeout);
    }

    /** Deletes every unused token of `userId`. */
    method DeleteUnusedUserTokens(userId: int)
      requires Valid()
      modifies this
      ensures Valid()
      ensures rows == PurgeUnused(old(rows), userId)
      ensures AtMostOneUnusedPerUser(old(rows)) ==> AtMostOneUnusedPerUser(rows)
    {
      rows := PurgeUnused(rows, userId);
    }

    /**
     * Starts enrollment of the subject user: refuses an activated account,
     * otherwise replaces the subject's unused tokens by a new one and, when
     * asked to and an address is known, queues a mail linking to it. Template
     * rendering and the hand-off to the mail queue are external; their
     * outcomes are `rendered` and `sent`. On an error after the table was
     * written, the caller is expected to roll its transaction back.
     */
    method StartEnrollment(
      subjectId: Option<int>, subjectHasPassword: bool, adminId: Option<int>,
      email: Option<string>, tokenTimeout: nat, sendUserNotification: bool,
      tokenId: string, now: int, rendered: Outcome<string>, sent: Outcome<string>)
      returns (r: Result<string, EnrollmentError>, mail: Option<Mail>)
      requires Valid()
      requires !subjectHasPassword ==> subjectId.Some? && adminId.Some?
      requires IsAlphanumeric(tokenId, TOKEN_ID_LENGTH)
      modifies this
      ensures Valid()
      ensures subjectHasPassword ==> r == Failure(AlreadyActive) && mail == None && rows == old(rows)
      ensures !subjectHasPassword ==>
        var purged := PurgeUnused(old(rows), subjectId.value);
        && (tokenId in purged ==> r == Failure(DbError) && rows == purged)
        && (tokenId !in purged ==>
              rows == purged[tokenId := NewEnrollment(tokenId, subjectId.value, adminId.value, email, tokenTimeout, now)])
      ensures r.Success? <==>
        && !subjectHasPassword
        && tokenId !in PurgeUnused(old(rows), subjectId.value)
        && (sendUserNotification && email.Some? ==> rendered.Pass? && sent.Pass?)
      ensures !subjectHasPassword && tokenId !in PurgeUnused(old(rows), subjectId.value)
              && sendUserNotification && email.Some? ==>
        && (rendered.Fail? ==> r == Failure(NotificationError(rendered.error)))
        && (rendered.Pass? && sent.Fail? ==> r == Failure(NotificationError(sent.error)))
      ensures r.Success? ==> r.value == tokenId && UnusedTokens(rows, subjectId.value) == {tokenId}
      ensures r.Success? ==> rows[tokenId].IsUsable(now) && rows[tokenId].userId == subjectId.value
      ensures mail.Some? <==> r.Success? && sendUserNotification && email.Some?
      ensures mail.Some? ==> mail.value == Mail(email.value, ENROLLMENT_START_MAIL_SUBJECT, tokenId)
      ensures !subjectHasPassword ==>
        forall k :: k in old(rows) && (old(rows)[k].userId != subjectId.value || old(rows)[k].IsUsed())
                    ==> k in rows && rows[k] == old(rows)[k]
      ensures KeepsSpent(old(rows), rows)
      ensures AtMostOneUnusedPerUser(old(rows)) ==> AtMostOneUnusedPerUser(rows)
    {
      mail := None;
      if subjectHasPassword {
        return Failure(AlreadyActive), None;
      }
      var userId := subjectId.value;
      var admin := adminId.value;

      DeleteUnusedUserTokens(userId);

      var enrollment := NewEnrollment(tokenId, userId, admin, email, tokenTimeout, now);
      var saved := Save(enrollment);
      if saved.Fail? {
        return Failure(saved.error), None;
      }
      assert UnusedTokens(rows, userId) == {tokenId};

      if sendUserNotification && email.Some? {
        if rendered.Fail? {
          return Failure(NotificationError(rendered.error)), None;
        }
        match sent {
          case Pass =>
            mail := Some(Mail(email.value, ENROLLMENT_START_MAIL_SUBJECT, enrollment.id));
          case Fail(reason) =>
            return Failure(NotificationError(reason)), None;
        }
      }
      r := Success(enrollment.id);
    }
  }

  /** Instance settings that hold the enrollment welcome texts. */
  datatype Settings = Settings(
    enrollmentWelcomeMessage: Option<string>,
    enrollmentWelcomeEmail: Option<string>,
    enrollmentUseWelcomeMessageAsEmail: bool)
  {
    /** The configured welcome message, or `WelcomeMsgNotConfigured`. */
    function WelcomeMessage(): (r: Result<string, EnrollmentError>)
      ensures r.Success? <==> enrollmentWelcomeMessage.Some?
      ensures r.Success? ==> r.value == enrollmentWelcomeMessage.value
      ensures r.Failure? ==> r.error == WelcomeMsgNotConfigured && ToStatus(r.error).code == Internal
    {
      match enrollmentWelcomeMessage
      case Some(m) => Success(m)
      case None => Failure(WelcomeMsgNotConfigured)
    }

    /**
     * The welcome email text: the welcome message itself when the settings say
     * so, otherwise the separately configured email text.
     */
    function WelcomeEmail(): (r: Result<string, EnrollmentError>)
      ensures enrollmentUseWelcomeMessageAsEmail ==> r == WelcomeMessage()
      ensures !enrollmentUseWelcomeMessageAsEmail ==>
        && (r.Success? <==> enrollmentWelcomeEmail.Some?)
        && (r.Success? ==> r.value == enrollmentWelcomeEmail.value)
        && (r.Failure? ==> r.error == WelcomeEmailNotConfigured)
      ensures r.Failure? ==> ToStatus(r.error).code == Internal
    {
      if enrollmentUseWelcomeMessageAsEmail then
        WelcomeMessage()
      else
        match enrollmentWelcomeEmail
        case Some(m) => Success(m)
        case None => Failure(WelcomeEmailNotConfigured)
    }
  }

  /**
   * Two copies of one token fetched before either is presented both open a
   * session: the check is made on the presented copy, not on the stored row,
   * so the second presentation succeeds too and stamps the row again. This
   * is the sequential form of two sessions racing on one token.
   */
  method StaleCopySpendsTwice(userId: int, adminId: int, tokenId: string, now: int)
    returns (first: Result<int, EnrollmentError>, second: Result<int, EnrollmentError>, stamped: Option<int>)
    requires IsAlphanumeric(tokenId, TOKEN_ID_LENGTH)
    ensures first == Success(now + 600)
    ensures second == Success(now + 5 + 600)
    ensures stamped == Some(now + 5)
  {
    var table := new EnrollmentTable();
    var issued, mail := table.StartEnrollment(Some(userId), false, Some(adminId), None, 86400, false,
                                              tokenId, now, Pass, Pass);
    var copy1 := table.FindById(tokenId);
    var copy2 := table.FindById(tokenId);
    var spent1, spent2;
    first, spent1 := table.StartSession(copy1.value, 600, now);
    second, spent2 := table.StartSession(copy2.value, 600, now + 5);
    stamped := table.rows[tokenId].usedAt;
  }

  /**
   * The issue-then-spend walk-through: a token issued for a new user with a
   * one-day lifetime opens a ten-minute session when presented at once, a
   * second presentation is refused as replayed, and the session is closed at
   * its deadline.
   */
  method IssueAndSpendOnce(userId: int, adminId: int, tokenId: string, now: int)
    returns (issued: Result<string, EnrollmentError>, first: Result<int, EnrollmentError>,
             second: Result<int, EnrollmentError>, openAtDeadline: bool)
    requires IsAlphanumeric(tokenId, TOKEN_ID_LENGTH)
    ensures issued == Success(tokenId)
    ensures first == Success(now + 600)
    ensures second == Failure(TokenUsed)
    ensures !openAtDeadline
  {
    var table := new EnrollmentTable();
    var mail;
    issued, mail := table.StartEnrollment(Some(userId), false, Some(adminId), None, 86400, false,
                                          tokenId, now, Pass, Pass);
    var found := table.FindById(tokenId);
    var spent, ignored;
    first, spent := table.StartSession(found.value, 600, now);
    var again := table.FindById(tokenId);
    second, ignored := table.StartSession(again.value, 600, now);
    openAtDeadline := spent.IsSessionValid(600, now + 600);
  }
}
