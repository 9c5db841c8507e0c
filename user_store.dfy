/**
 * The `users` collection as the four handlers use it: one document per user
 * holding a username and an embedded list of exercises, and the readiness
 * of the connection that every handler checks first.
 */
module UserStore {
  import opened Wrappers
  import opened Exercises
  import opened LogQuery

  /** A document identifier; the store hands them out in creation order. */
  type UserId = nat

  datatype User = User(username: string, exercises: seq<Exercise>)

  /** A user with the exercises projected out, as the user listing returns it. */
  datatype UserSummary = UserSummary(id: UserId, username: string)

  /** The reply to a successful add-exercise request. */
  datatype ExerciseReply = ExerciseReply(id: UserId, username: string, description: string, duration: ParsedInt, date: Date)

  /** The reply to a successful log request. */
  datatype LogReply = LogReply(id: UserId, report: LogReport)

  /** The `:_id` path parameter: a well-formed identifier, or one the identifier constructor rejects. */
  datatype RequestId = WellFormed(id: UserId) | Malformed

  datatype Error =
    | NotConnected  // the collection handle is not set yet
    | NotFound      // no document has the requested id
    | InvalidId     // the id could not be turned into a document identifier

  class UserCollection {
    /** Whether the connection callback has set the collection handle. */
    var ready: bool
    var users: map<UserId, User>
    /** The identifier the next inserted document receives. */
    var nextId: nat

    /** The documents are exactly those with the identifiers handed out so far. */
    ghost predicate Valid()
      reads this
    {
      forall id: UserId :: id in users <==> id < nextId
    }

    /** Before the connection is established: no handle, and an empty collection. */
    constructor ()
      ensures Valid()
      ensures !ready && users == map[] && nextId == 0
    {
      ready := false;
      users := map[];
      nextId := 0;
    }

    /** The connection callback: the handle is set and the documents are untouched. */
    method Connect()
      requires Valid()
      modifies this
      ensures Valid()
      ensures ready && users == old(users) && nextId == old(nextId)
    {
      ready := true;
    }

    /** `POST /api/users`: inserts a user with no exercises under a fresh identifier. */
    method CreateUser(username: string) returns (r: Result<UserSummary, Error>)
      requires Valid()
      modifies this
      ensures Valid() && ready == old(ready)
      ensures !old(ready) ==> r == Failure(NotConnected) && users == old(users) && nextId == old(nextId)
      ensures old(ready) ==>
        && r == Success(UserSummary(old(nextId), username))
        && r.value.id !in old(users)
        && users == old(users)[r.value.id := User(username, [])]
        && nextId == old(nextId) + 1
    {
      if !ready {
        return Failure(NotConnected);
      }
      var id := nextId;
      users := users[id := User(username, [])];
      nextId := nextId + 1;
      r := Success(UserSummary(id, username));
    }

    /**
     * `POST /api/users/:_id/exercises`: builds the exercise, then pushes it onto
     * the end of the user's list; a missing user is reported and nothing changes.
     */
    method AddExercise(rawId: RequestId, description: string, duration: ParsedInt, date: Option<Date>, today: int)
      returns (r: Result<ExerciseReply, Error>)
      requires Valid()
      modifies this
      ensures Valid() && ready == old(ready) && nextId == old(nextId)
      ensures r.Success? <==> old(ready) && rawId.WellFormed? && rawId.id in old(users)
      ensures r.Failure? ==> users == old(users)
      ensures !old(ready) ==> r == Failure(NotConnected)
      ensures old(ready) && rawId.Malformed? ==> r == Failure(InvalidId)
      ensures old(ready) && rawId.WellFormed? && rawId.id !in old(users) ==> r == Failure(NotFound)
      ensures r.Success? ==>
        var id := rawId.id;
        var e := NewExercise(description, duration, date, today);
        && users == old(users)[id := User(old(users)[id].username, old(users)[id].exercises + [e])]
        && r.value == ExerciseReply(id, old(users)[id].username, e.description, e.duration, e.date)
      ensures r.Success? && date.Some? ==>
        users[rawId.id].exercises == old(users)[rawId.id].exercises + [Exercise(description, duration, date.value)]
      ensures r.Success? && date.None? ==>
        users[rawId.id].exercises == old(users)[rawId.id].exercises + [Exercise(description, duration, Day(today))]
    {
      if !ready {
        return Failure(NotConnected);
      }
      var e := NewExercise(description, duration, date, today);
      if rawId.Malformed? {
        return Failure(InvalidId);
      }
      var id := rawId.id;
      if id !in users {
        return Failure(NotFound);
      }
      var user := users[id];
      users := users[id := User(user.username, user.exercises + [e])];
      r := Success(ExerciseReply(id, user.username, e.description, e.duration, e.date));
    }

    /** `GET /api/users/:_id/logs`: the user's exercises filtered and limited by the query. */
    method FetchLogs(rawId: RequestId, q: Query) returns (r: Result<LogReply, Error>)
      requires Valid()
      ensures r.Success? <==> ready && rawId.WellFormed? && rawId.id in users
      ensures !ready ==> r == Failure(NotConnected)
      ensures ready && rawId.Malformed? ==> r == Failure(InvalidId)
      ensures ready && rawId.WellFormed? && rawId.id !in users ==> r == Failure(NotFound)
      ensures r.Success? ==>
        && r.value.id == rawId.id
        && r.value.report.username == users[rawId.id].username
        && r.value.report.log == Log(users[rawId.id].exercises, q)
        && r.value.report.count == |r.value.report.log|
    {
      if !ready {
        return Failure(NotConnected);
      }
      if rawId.Malformed? {
        return Failure(InvalidId);
      }
      var id := rawId.id;
      if id !in users {
        return Failure(NotFound);
      }
      var user := users[id];
      r := Success(LogReply(id, Report(user.username, user.exercises, q)));
    }

    /** `GET /api/users`: every user, in creation order, with only its id and username. */
    method ListUsers() returns (r: Result<seq<UserSummary>, Error>)
      requires Valid()
      ensures r.Success? <==> ready
      ensures !ready ==> r == Failure(NotConnected)
      ensures r.Success? ==>
        && |r.value| == nextId
        && forall id :: id in users ==> id < |r.value| && r.value[id] == UserSummary(id, users[id].username)
    {
      if !ready {
        return Failure(NotConnected);
      }
      var docs, n := users, nextId;
      r := Success(seq(n, i requires 0 <= i < n && i in docs => UserSummary(i, docs[i].username)));
    }
  }

  /**
   * A user created and then given one exercise is listed under its username,
   * and its unfiltered log is exactly that exercise, with count 1.
   */
  method CreateAddThenQuery(c: UserCollection, username: string, description: string, duration: ParsedInt, day: int)
    returns (listed: seq<UserSummary>, report: LogReport)
    requires c.Valid() && c.ready
    modifies c
    ensures c.Valid()
    ensures exists k :: 0 <= k < |listed| && listed[k].username == username
    ensures report.log == [Exercise(description, duration, Day(day))] && report.count == 1
  {
    var created := c.CreateUser(username);
    var id := created.value.id;
    var added := c.AddExercise(WellFormed(id), description, duration, None, day);
    var all := c.ListUsers();
    listed := all.value;
    assert listed[id].username == username;
    var logs := c.FetchLogs(WellFormed(id), Query(None, None, None));
    LogUnfiltered([Exercise(description, duration, Day(day))]);
    report := logs.value.report;
  }
}
