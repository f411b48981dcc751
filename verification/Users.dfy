/**
 * Creating a user inside the transaction middleware (api/admin/user and internal/middlewares/transaction.go): the users
 * table, the repository bound to a transaction, the service's pre-checks, the controller's statuses and the commit.
 */
module Users {
  import opened Wrappers

  datatype User = User(
    fullName: string, phone: string, gender: string, email: string, passwordHash: string, deleted: bool)

  type Table = map<nat, User>

  /** The request body; the client may also fill in id and deletion mark, and id 0 asks for the next free one. */
  datatype CreateRequest = CreateRequest(
    bound: bool, id: nat, fullName: string, phone: string, gender: string, email: string,
    password: string, confirmPassword: string, deleted: bool)

  /** Where the handler panics, if it does. */
  datatype Panic = Never | BeforeInsert | AfterInsert | AfterReply

  /** What one request meets: failing calls, the bcrypt hash (none if hashing fails) and AUTO_INCREMENT's next id. */
  datatype World = World(
    beginFails: bool, emailLookupFails: bool, phoneLookupFails: bool, insertFails: bool, commitFails: bool,
    hash: Option<string>, nextId: nat, panics: Panic)

  datatype Lookup = Found | RecordNotFound | LookupError

  datatype CreateError = PasswordMismatch | EmailAlreadyExists | PhoneAlreadyExists | OtherError

  /** A row that lookups see: soft-deleted rows are filtered out. */
  predicate LiveEmail(rows: Table, email: string) {
    exists k | k in rows :: !rows[k].deleted && rows[k].email == email
  }

  predicate LivePhone(rows: Table, phone: string) {
    exists k | k in rows :: !rows[k].deleted && rows[k].phone == phone
  }

  /** A unique key of the table is taken, by a live or a soft-deleted row. */
  predicate Taken(rows: Table, id: nat, email: string, phone: string) {
    id in rows || exists k | k in rows :: rows[k].email == email || rows[k].phone == phone
  }

  function IdFor(req: CreateRequest, w: World): nat {
    if req.id == 0 then w.nextId else req.id
  }

  function NewUser(req: CreateRequest, hash: string): User {
    User(req.fullName, req.phone, req.gender, req.email, hash, req.deleted)
  }

  /** The insert with its BeforeCreate hook. */
  function Insert(rows: Table, req: CreateRequest, w: World, fails: bool): Option<Table> {
    if w.hash.None? || fails || Taken(rows, IdFor(req, w), req.email, req.phone) then None
    else Some(rows[IdFor(req, w) := NewUser(req, w.hash.value)])
  }

  /**
   * One row was added, under an id that was free, with the request's data and the hash in place of the password; no
   * other row changed, and e-mail and phone were nobody's.
   */
  ghost predicate AddsOne(before: Table, after: Table, req: CreateRequest, w: World) {
    var id := if req.id == 0 then w.nextId else req.id;
    && w.hash.Some? && id !in before
    && (forall k | k in before :: before[k].email != req.email && before[k].phone != req.phone)
    && after.Keys == before.Keys + {id}
    && (forall k | k in before :: after[k] == before[k])
    && after[id].passwordHash == w.hash.value
    && after[id].fullName == req.fullName && after[id].gender == req.gender
    && after[id].email == req.email && after[id].phone == req.phone && after[id].deleted == req.deleted
  }

  /** The insert works exactly when the password is hashed, the call works, and id, e-mail and phone are free. */
  lemma InsertExactly(rows: Table, req: CreateRequest, w: World, fails: bool)
    ensures Insert(rows, req, w, fails).Some? <==>
            && !fails && w.hash.Some? && (if req.id == 0 then w.nextId else req.id) !in rows
            && forall k | k in rows :: rows[k].email != req.email && rows[k].phone != req.phone
    ensures Insert(rows, req, w, fails).Some? ==> AddsOne(rows, Insert(rows, req, w, fails).value, req, w)
  {
  }

  /** A database handle: the shared one, or a transaction's own view of the table. A failed begin breaks every call. */
  class Conn {
    var rows: Table
    const broken: bool

    constructor (rows: Table, broken: bool)
      ensures this.rows == rows && this.broken == broken
    {
      this.rows := rows;
      this.broken := broken;
    }
  }

  /** The GORM repository, a value that holds the handle it works on. */
  datatype Repository = Repository(db: Conn) {

    function WithTrx(trx: Conn?): Repository {
      if trx == null then this else Repository(trx)
    }

    method GetOneUserWithEmail(email: string, fails: bool) returns (found: Lookup)
      ensures found.LookupError? <==> fails || db.broken
      ensures found.Found? <==>
                !fails && !db.broken && exists k :: k in db.rows && !db.rows[k].deleted && db.rows[k].email == email
    {
      if fails || db.broken {
        return LookupError;
      }
      var ids := db.rows.Keys;
      while ids != {}
        invariant ids <= db.rows.Keys
        invariant forall k | k in db.rows && k !in ids :: db.rows[k].deleted || db.rows[k].email != email
      {
        var k :| k in ids;
        if !db.rows[k].deleted && db.rows[k].email == email {
          return Found;
        }
        ids := ids - {k};
      }
      return RecordNotFound;
    }

    method GetOneUserWithPhone(phone: string, fails: bool) returns (found: Lookup)
      ensures found.LookupError? <==> fails || db.broken
      ensures found.Found? <==>
                !fails && !db.broken && exists k :: k in db.rows && !db.rows[k].deleted && db.rows[k].phone == phone
    {
      if fails || db.broken {
        return LookupError;
      }
      var ids := db.rows.Keys;
      while ids != {}
        invariant ids <= db.rows.Keys
        invariant forall k | k in db.rows && k !in ids :: db.rows[k].deleted || db.rows[k].phone != phone
      {
        var k :| k in ids;
        if !db.rows[k].deleted && db.rows[k].phone == phone {
          return Found;
        }
        ids := ids - {k};
      }
      return RecordNotFound;
    }

    method Create(req: CreateRequest, w: World) returns (ok: bool)
      modifies db
      ensures ok ==> AddsOne(old(db.rows), db.rows, req, w)
      ensures ok == Insert(old(db.rows), req, w, w.insertFails || db.broken).Some?
      ensures db.rows ==
              if ok then Insert(old(db.rows), req, w, w.insertFails || db.broken).value else old(db.rows)
    {
      InsertExactly(db.rows, req, w, w.insertFails || db.broken);
      var inserted := Insert(db.rows, req, w, w.insertFails || db.broken);
      ok := inserted.Some?;
      if ok {
        db.rows := inserted.value;
      }
    }
  }

  function CreateChecked(rows: Table, req: CreateRequest, w: World, broken: bool): (Table, Option<CreateError>) {
    if req.password != req.confirmPassword then (rows, Some(PasswordMismatch))
    else if w.emailLookupFails || broken then (rows, Some(OtherError))
    else if LiveEmail(rows, req.email) then (rows, Some(EmailAlreadyExists))
    else if w.phoneLookupFails then (rows, Some(OtherError))
    else if LivePhone(rows, req.phone) then (rows, Some(PhoneAlreadyExists))
    else
      match Insert(rows, req, w, w.insertFails)
      case None => (rows, Some(OtherError))
      case Some(after) => (after, None)
  }

  /** What the service reports, each error by its exact condition; only a success changes the table. */
  lemma CheckedExactly(rows: Table, req: CreateRequest, w: World, broken: bool)
    ensures var (after, err) := CreateChecked(rows, req, w, broken);
            var matching := req.password == req.confirmPassword;
            var emailSeen := matching && !w.emailLookupFails && !broken;
            var emailHeld := exists k :: k in rows && !rows[k].deleted && rows[k].email == req.email;
            var phoneSeen := emailSeen && !emailHeld && !w.phoneLookupFails;
            var phoneHeld := exists k :: k in rows && !rows[k].deleted && rows[k].phone == req.phone;
            && (err == Some(PasswordMismatch) <==> !matching)
            && (err == Some(EmailAlreadyExists) <==> emailSeen && emailHeld)
            && (err == Some(PhoneAlreadyExists) <==> phoneSeen && phoneHeld)
            && (err == None <==> phoneSeen && !phoneHeld && Insert(rows, req, w, w.insertFails).Some?)
            && (if err == None then AddsOne(rows, after, req, w) else after == rows)
  {
    InsertExactly(rows, req, w, w.insertFails);
  }

  datatype Service = Service(repository: Repository) {

    function WithTrx(trx: Conn?): Service {
      Service(repository.WithTrx(trx))
    }

    method CreateUser(req: CreateRequest, w: World) returns (err: Option<CreateError>)
      modifies repository.db
      ensures (repository.db.rows, err) ==
              CreateChecked(old(repository.db.rows), req, w, repository.db.broken)
    {
      if req.password != req.confirmPassword {
        return Some(PasswordMismatch);
      }
      var byEmail := repository.GetOneUserWithEmail(req.email, w.emailLookupFails);
      if byEmail.Found? {
        return Some(EmailAlreadyExists);
      } else if byEmail.LookupError? {
        return Some(OtherError);
      }
      var byPhone := repository.GetOneUserWithPhone(req.phone, w.phoneLookupFails);
      if byPhone.Found? {
        return Some(PhoneAlreadyExists);
      } else if byPhone.LookupError? {
        return Some(OtherError);
      }
      var ok := repository.Create(req, w);
      return if ok then None else Some(OtherError);
    }
  }

  function StatusOf(err: Option<CreateError>): int {
    match err
    case None => 200
    case Some(PasswordMismatch) => 400
    case Some(EmailAlreadyExists) => 409
    case Some(PhoneAlreadyExists) => 409
    case Some(OtherError) => 500
  }

  /** The handler's run on a transaction's view: the view afterwards, the status if one was written, and a panic. */
  datatype Handled = Handled(view: Table, status: Option<int>, panicked: bool)

  function Handle(rows: Table, req: CreateRequest, w: World): Handled {
    var (view, status) :=
      if !req.bound then (rows, 400)
      else if req.confirmPassword == "" then (rows, 422)
      else
        var (after, err) := CreateChecked(rows, req, w, w.beginFails);
        (after, StatusOf(err));
    match w.panics
    case Never => Handled(view, Some(status), false)
    case BeforeInsert => Handled(rows, None, true)
    case AfterInsert => Handled(view, None, true)
    case AfterReply => Handled(view, Some(status), true)
  }

  /** The controller, with the service over the shared handle. */
  class Controller {
    const userService: Service

    constructor (userService: Service)
      ensures this.userService == userService
    {
      this.userService := userService;
    }

    /**
     * Works on the transaction's handle alone: the frame leaves the shared one out. Without a transaction in the
     * context it panics before anything else.
     */
    method CreateUser(trx: Conn?, req: CreateRequest, w: World) returns (status: Option<int>, panicked: bool)
      requires trx != null ==> trx.broken == w.beginFails
      modifies trx
      ensures trx == null ==> status.None? && panicked
      ensures trx != null ==> Handled(trx.rows, status, panicked) == Handle(old(trx.rows), req, w)
    {
      status, panicked := None, false;
      if trx == null {
        return None, true;
      }
      if w.panics.BeforeInsert? {
        return None, true;
      }
      var outcome := 200;
      if !req.bound {
        outcome := 400;
      } else if req.confirmPassword == "" {
        outcome := 422;
      } else {
        var bound := userService.WithTrx(trx);
        var err := bound.CreateUser(req, w);
        if err.Some? {
          match err.value
          case PasswordMismatch => outcome := 400;
          case EmailAlreadyExists => outcome := 409;
          case PhoneAlreadyExists => outcome := 409;
          case OtherError => outcome := 500;
        }
      }
      if w.panics.AfterInsert? {
        return None, true;
      }
      status := Some(outcome);
      panicked := w.panics.AfterReply?;
    }
  }

  predicate IsWriteMethod(m: string) {
    m == "POST" || m == "PUT" || m == "PATCH" || m == "DELETE"
  }

  /**
   * What the middleware passes on: the table, the status on the writer (200 while nothing is written), whether it was
   * written, and whether a panic is still under way.
   */
  datatype RouteResult = RouteResult(rows: Table, status: int, written: bool, panicking: bool)

  /** How the transaction of a handler's run ends. */
  function Settle(rows: Table, run: Handled, w: World): RouteResult {
    var status := if run.status.Some? then run.status.value else 200;
    var commits := !run.panicked && (status == 200 || status == 201) && !w.beginFails && !w.commitFails;
    RouteResult(if commits then run.view else rows, status, run.status.Some?, false)
  }

  /**
   * Whatever the handler did: its changes stay exactly when it did not panic, its status is 200 or 201, an unwritten
   * one counting as 200, and both begin and commit work. Its panic ends here.
   */
  lemma SettleExactly(rows: Table, run: Handled, w: World)
    ensures var out := Settle(rows, run, w);
            && !out.panicking && (out.written <==> run.status != None)
            && out.status == (if run.status == None then 200 else run.status.value)
            && (out.rows == run.view || out.rows == rows)
            && (run.view != rows ==>
                  (out.rows == run.view <==>
                     !run.panicked && run.status in {None, Some(200), Some(201)} && !w.beginFails && !w.commitFails))
  {
  }

  /** `POST /users`. */
  function CreateRoute(rows: Table, req: CreateRequest, w: World): RouteResult {
    Settle(rows, Handle(rows, req, w), w)
  }

  /** The handler under any method: without a transaction it panics, and that panic is not recovered here. */
  function Route(verb: string, rows: Table, req: CreateRequest, w: World): RouteResult {
    if IsWriteMethod(verb) then CreateRoute(rows, req, w) else RouteResult(rows, 200, false, true)
  }

  class DBTransactionMiddleware {
    const db: Conn

    constructor (db: Conn)
      ensures this.db == db
    {
      this.db := db;
    }

    /** Begin, run, then commit or roll back; a panic is recovered here and not raised again. Reads skip all that. */
    method DBTransactionHandle(controller: Controller, verb: string, req: CreateRequest, w: World)
      returns (status: int, written: bool, panicking: bool)
      modifies db
      ensures RouteResult(db.rows, status, written, panicking) == Route(verb, old(db.rows), req, w)
      ensures panicking <==> verb !in {"POST", "PUT", "PATCH", "DELETE"}
      ensures panicking ==> db.rows == old(db.rows)
    {
      status, written, panicking := 200, false, false;
      if !IsWriteMethod(verb) {
        var reply, panicked := controller.CreateUser(null, req, w);
        return 200, false, panicked;
      }
      var txHandle := new Conn(db.rows, w.beginFails);
      var reply, panicked := controller.CreateUser(txHandle, req, w);
      if reply.Some? {
        status, written := reply.value, true;
      }
      if panicked {
        return;
      }
      if status == 200 || status == 201 {
        if !w.beginFails && !w.commitFails {
          db.rows := txHandle.rows;
        }
      }
    }
  }

  /**
   * The table changes only by the one new row and only under a written 200; on every other path, panics included, it
   * is exactly as before. A 200 means the row is there exactly when nothing panicked and the commit worked.
   */
  lemma CreateIsAtomic(rows: Table, req: CreateRequest, w: World)
    ensures var out := CreateRoute(rows, req, w);
            && (out.rows == rows || (AddsOne(rows, out.rows, req, w) && out.status == 200 && out.written))
            && (out.rows != rows <==> out.status == 200 && w.panics.Never? && !w.commitFails)
  {
    var out := CreateRoute(rows, req, w);
    InsertExactly(rows, req, w, w.insertFails);
    if AddsOne(rows, out.rows, req, w) {
      assert (if req.id == 0 then w.nextId else req.id) in out.rows;
    }
  }

  /** A handler that panics before it answers is rolled back, and yet the client is answered 200. */
  lemma PanicAnswers200(rows: Table, req: CreateRequest, w: World)
    requires w.panics.BeforeInsert? || w.panics.AfterInsert?
    ensures CreateRoute(rows, req, w) == RouteResult(rows, 200, false, false)
  {
  }

  /** Someone soft-deleted holds the e-mail or the phone. */
  ghost predicate HeldByDeleted(rows: Table, email: string, phone: string) {
    exists k | k in rows && rows[k].deleted :: rows[k].email == email || rows[k].phone == phone
  }

  /**
   * The status of a request that does not panic before it answers. Having passed the pre-checks, with every database
   * call working, it is answered 500 exactly when hashing fails, the id is taken, or a soft-deleted row holds the e-mail or phone.
   */
  lemma StatusExactly(rows: Table, req: CreateRequest, w: World)
    requires w.panics.Never? || w.panics.AfterReply?
    ensures CreateRoute(rows, req, w).written
    ensures var status := CreateRoute(rows, req, w).status;
            var validated := req.bound && req.confirmPassword != "";
            var checked := validated && req.password == req.confirmPassword;
            var emailSeen := !w.beginFails && !w.emailLookupFails;
            var clear := emailSeen && !LiveEmail(rows, req.email) && !w.phoneLookupFails && !LivePhone(rows, req.phone);
            var phoneHit := !w.phoneLookupFails && LivePhone(rows, req.phone);
            var missed := w.hash.None? || IdFor(req, w) in rows || HeldByDeleted(rows, req.email, req.phone);
            && (status == 422 <==> req.bound && !validated)
            && (status == 400 <==> !req.bound || (validated && !checked))
            && (status == 409 <==> checked && emailSeen && (LiveEmail(rows, req.email) || phoneHit))
            && (status == 200 <==> checked && clear && !missed && !w.insertFails)
            && (status == 500 <==> status != 422 && status != 400 && status != 409 && status != 200)
  {
    if !LiveEmail(rows, req.email) && !LivePhone(rows, req.phone) {
      assert Taken(rows, IdFor(req, w), req.email, req.phone) <==>
             IdFor(req, w) in rows || HeldByDeleted(rows, req.email, req.phone);
    }
  }

  /** A created user is there for the next request: the same e-mail or phone then conflicts, unless marked deleted. */
  lemma CreatedUserConflicts(rows: Table, req: CreateRequest, w: World, again: CreateRequest, v: World)
    requires CreateRoute(rows, req, w).status == 200 && w.panics.Never? && !w.commitFails
    requires v.panics.Never? && !v.beginFails && !v.emailLookupFails && !v.phoneLookupFails
    requires again.bound && again.confirmPassword != "" && again.password == again.confirmPassword
    requires again.email == req.email || again.phone == req.phone
    ensures var after := CreateRoute(rows, req, w).rows;
            if req.deleted then CreateRoute(after, again, v).status in {409, 500}
            else CreateRoute(after, again, v) == RouteResult(after, 409, true, false)
  {
    CreateIsAtomic(rows, req, w);
    var after := CreateRoute(rows, req, w).rows;
    var id := IdFor(req, w);
    assert after != rows && id in after && after[id].email == req.email && after[id].phone == req.phone;
    StatusExactly(after, again, v);
    CreateIsAtomic(after, again, v);
  }

  ghost predicate Unique(rows: Table) {
    forall j, k | j in rows && k in rows && j != k :: rows[j].email != rows[k].email && rows[j].phone != rows[k].phone
  }

  ghost predicate NoneDeleted(rows: Table) {
    forall k | k in rows :: !rows[k].deleted
  }

  datatype Request = Request(req: CreateRequest, w: World)

  function Run(rows: Table, requests: seq<Request>): Table {
    if requests == [] then rows
    else
      var last := requests[|requests| - 1];
      CreateRoute(Run(rows, requests[..|requests| - 1]), last.req, last.w).rows
  }

  /** E-mails and phones stay pairwise distinct, whatever the requests and the faults. */
  lemma {:induction false} UsersStayUnique(rows: Table, requests: seq<Request>)
    requires Unique(rows)
    ensures Unique(Run(rows, requests))
  {
    if requests != [] {
      var before := requests[..|requests| - 1];
      var last := requests[|requests| - 1];
      UsersStayUnique(rows, before);
      CreateIsAtomic(Run(rows, before), last.req, last.w);
    }
  }

  ghost predicate NoFaults(w: World) {
    !w.beginFails && !w.emailLookupFails && !w.phoneLookupFails && !w.insertFails && !w.commitFails && w.panics.Never?
  }

  /** Requests that leave id and deletion mark alone, meet no fault, and are given ids that are free. */
  ghost predicate Ordinary(rows: Table, requests: seq<Request>) {
    forall k | 0 <= k < |requests| ::
      var r := requests[k];
      && r.req.bound && r.req.confirmPassword != "" && r.req.id == 0 && !r.req.deleted
      && NoFaults(r.w) && r.w.hash.Some? && r.w.nextId !in Run(rows, requests[..k])
  }

  lemma {:induction false} OrdinaryKeepsNoneDeleted(rows: Table, requests: seq<Request>, k: nat)
    requires NoneDeleted(rows) && Ordinary(rows, requests) && k <= |requests|
    ensures NoneDeleted(Run(rows, requests[..k]))
  {
    if k > 0 {
      OrdinaryKeepsNoneDeleted(rows, requests, k - 1);
      assert requests[..k][..k - 1] == requests[..k - 1];
      CreateIsAtomic(Run(rows, requests[..k - 1]), requests[k - 1].req, requests[k - 1].w);
    }
  }

  /** In such a run from a table without soft-deleted rows the pre-checks are complete: no insert meets a constraint. */
  lemma PreChecksComplete(rows: Table, requests: seq<Request>, k: nat)
    requires NoneDeleted(rows) && Ordinary(rows, requests) && k < |requests|
    ensures var before := Run(rows, requests[..k]);
            var req := requests[k].req;
            var status := CreateRoute(before, req, requests[k].w).status;
            && (status == 400 <==> req.password != req.confirmPassword)
            && (status == 409 <==> req.password == req.confirmPassword &&
                                   (LiveEmail(before, req.email) || LivePhone(before, req.phone)))
            && (status == 200 <==> status != 400 && status != 409)
  {
    OrdinaryKeepsNoneDeleted(rows, requests, k);
    StatusExactly(Run(rows, requests[..k]), requests[k].req, requests[k].w);
  }
}
