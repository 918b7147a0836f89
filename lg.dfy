/** The greeting service of package lg: a data store that maps user ids to
    names, a logger, the business logic that greets a user, and the HTTP
    controller in front of it. */
module Lg {

  /** The one error the logic reports ("unknown user"). */
  const UnknownUser: string := "不明なユーザー"
  /** Appended to the name by SayHello ("-san, hello."). */
  const HelloSuffix: string := "さんこんにちは。"
  /** Appended to the name by SayGoodBy ("-san, goodbye."). */
  const GoodBySuffix: string := "さんさようなら。"
  /** What HandleGreeting logs on entry, before calling the logic. */
  const HandlerEntry: string := "SayHello内: "

  const StatusOK: int := 200
  const StatusBadRequest: int := 400

  // ---------------------------------------------------------- data store

  /** The two store types of the source. Both hold a user-id -> name map
      and answer lookups the same way; they are values, never updated. */
  datatype DataStore =
    | SimpleDataStore(userData: map<string, string>)
    | ComplexDataStore(userData: map<string, string>)
  {
    /** Go's comma-ok lookup: the name and true when the id is a key,
        otherwise the empty string and false. */
    function UserNameForID(userID: string): (r: (string, bool))
      ensures r.1 <==> userID in userData
      ensures r.1 ==> r.0 == userData[userID]
      ensures !r.1 ==> r.0 == ""
    {
      if userID in userData then (userData[userID], true) else ("", false)
    }
  }

  /** The factory's seed data: exactly the ids "1", "2" and "3". */
  function NewSimpleDataStore(): (ds: DataStore)
    ensures ds.SimpleDataStore?
    ensures ds.userData.Keys == {"1", "2", "3"}
    ensures ds.userData["1"] == "Chris"
    ensures ds.userData["2"] == "Marry"
    ensures ds.userData["3"] == "John"
  {
    SimpleDataStore(map["1" := "Chris", "2" := "Marry", "3" := "John"])
  }

  /** Lookups in the seeded store: the three seeded names, and absence
      (with the empty name) for every other id, the empty id included. */
  lemma SeededLookups(userID: string)
    ensures var r := NewSimpleDataStore().UserNameForID(userID);
            r == if userID == "1" then ("Chris", true)
                 else if userID == "2" then ("Marry", true)
                 else if userID == "3" then ("John", true)
                 else ("", false)
  {
    var ds := NewSimpleDataStore();
    if userID !in {"1", "2", "3"} {
      assert userID !in ds.userData;
    }
  }

  // --------------------------------------------------------------- logic

  /** A call's `(message, error)` pair: a message and no error, or an
      error text and the empty message. */
  datatype Outcome = Ok(message: string) | Err(error: string)

  /** What SayHello (suffix HelloSuffix) and SayGoodBy (suffix
      GoodBySuffix) return for `userID`: the name followed by the suffix
      when the store knows the id, otherwise the unknown-user error. */
  function Salute(ds: DataStore, userID: string, suffix: string): (r: Outcome)
    ensures r.Ok? <==> userID in ds.userData
    ensures r.Ok? ==> r.message == ds.userData[userID] + suffix
    ensures r.Err? ==> r.error == UnknownUser
  {
    var (name, ok) := ds.UserNameForID(userID);
    if !ok then Err(UnknownUser) else Ok(name + suffix)
  }

  /** A successful reply determines the user's name: two ids greeted with
      the same text have the same name. */
  lemma {:induction false} SaluteDeterminesName(ds: DataStore, a: string, b: string, suffix: string)
    requires Salute(ds, a, suffix).Ok? && Salute(ds, a, suffix) == Salute(ds, b, suffix)
    ensures ds.userData[a] == ds.userData[b]
  {
    var na, nb := ds.userData[a], ds.userData[b];
    assert na + suffix == nb + suffix;
    assert |na| == |nb|;
    assert na == (na + suffix)[..|na|];
    assert nb == (nb + suffix)[..|nb|];
  }

  /** The log entry a logic call writes: the operation and the id. */
  function CallEntry(operation: string, userID: string): (e: string)
    ensures |e| == |operation| + |userID| + 2
    ensures e[..|operation|] == operation
    ensures e[|operation|] == '(' && e[|e| - 1] == ')'
    ensures e[|operation| + 1 .. |e| - 1] == userID
  {
    operation + "(" + userID + ")"
  }

  /** Go's `LoggerAdapter` wrapping a print function: `entries` are the
      messages handed to the wrapped function, oldest first. */
  class LoggerAdapter {
    var entries: seq<string>

    constructor ()
      ensures entries == []
    {
      entries := [];
    }

    /** Hands `message` to the wrapped function, once. */
    method Log(message: string)
      modifies this
      ensures entries == old(entries) + [message]
    {
      entries := entries + [message];
    }
  }

  /** The business logic: a logger (shared by reference) and a store. */
  class SimpleLogic {
    const l: LoggerAdapter
    const ds: DataStore

    constructor (l: LoggerAdapter, ds: DataStore)
      ensures this.l == l && this.ds == ds
    {
      this.l := l;
      this.ds := ds;
    }

    /** Logs "SayHello(<id>)", then answers from the store. */
    method SayHello(userID: string) returns (r: Outcome)
      modifies l
      ensures l.entries == old(l.entries) + [CallEntry("SayHello", userID)]
      ensures r == Salute(ds, userID, HelloSuffix)
    {
      l.Log(CallEntry("SayHello", userID));
      var (name, ok) := ds.UserNameForID(userID);
      if !ok {
        return Err(UnknownUser);
      }
      return Ok(name + HelloSuffix);
    }

    /** Logs "SayGoodBy(<id>)", then answers from the store. */
    method SayGoodBy(userID: string) returns (r: Outcome)
      modifies l
      ensures l.entries == old(l.entries) + [CallEntry("SayGoodBy", userID)]
      ensures r == Salute(ds, userID, GoodBySuffix)
    {
      l.Log(CallEntry("SayGoodBy", userID));
      var (name, ok) := ds.UserNameForID(userID);
      if !ok {
        return Err(UnknownUser);
      }
      return Ok(name + GoodBySuffix);
    }
  }

  // ---------------------------------------------------------- controller

  /** What the handler writes back: a status code and a body. */
  datatype Response = Response(status: int, body: string)

  /** How the handler renders a logic outcome: an error becomes 400 with
      the error text as body; a message becomes the body under the
      default status, 200. */
  function Render(o: Outcome): (resp: Response)
    ensures resp.status == StatusBadRequest <==> o.Err?
    ensures resp.status == StatusOK <==> o.Ok?
    ensures o.Ok? ==> resp.body == o.message
    ensures o.Err? ==> resp.body == o.error
  {
    match o
    case Err(e) => Response(StatusBadRequest, e)
    case Ok(m) => Response(StatusOK, m)
  }

  /** The response to `/hello?user_id=<userID>` for store `ds`. */
  function Greet(ds: DataStore, userID: string): (resp: Response)
    ensures resp.status == StatusOK <==> userID in ds.userData
    ensures resp.status == StatusBadRequest <==> userID !in ds.userData
    ensures userID in ds.userData ==> resp.body == ds.userData[userID] + HelloSuffix
    ensures userID !in ds.userData ==> resp.body == UnknownUser
  {
    Render(Salute(ds, userID, HelloSuffix))
  }

  /** The HTTP controller: a logger and the logic it calls. */
  class Controller {
    const l: LoggerAdapter
    const logic: SimpleLogic

    constructor (l: LoggerAdapter, logic: SimpleLogic)
      ensures this.l == l && this.logic == logic
    {
      this.l := l;
      this.logic := logic;
    }

    /** Handles one request whose `user_id` query parameter is `userID`
        (the empty string when the parameter is missing). Logs the entry
        marker, then calls SayHello. When controller and logic share one
        logger, the two entries land in it in that order. */
    method HandleGreeting(userID: string) returns (resp: Response)
      modifies l, logic.l
      ensures resp == Greet(logic.ds, userID)
      ensures l == logic.l ==>
                l.entries == old(l.entries) + [HandlerEntry, CallEntry("SayHello", userID)]
      ensures l != logic.l ==>
                l.entries == old(l.entries) + [HandlerEntry] &&
                logic.l.entries == old(logic.l.entries) + [CallEntry("SayHello", userID)]
    {
      l.Log(HandlerEntry);
      var message := logic.SayHello(userID);
      resp := Render(message);
    }
  }

  /** The wiring of the program's entry point, serving one request: one
      logger shared by controller and logic, the seeded store. Returns the
      response and everything logged. */
  method ServeOnce(userID: string) returns (resp: Response, log: seq<string>)
    ensures resp == Greet(NewSimpleDataStore(), userID)
    ensures log == [HandlerEntry, CallEntry("SayHello", userID)]
    ensures userID == "1" ==> resp == Response(StatusOK, "Chrisさんこんにちは。")
    ensures userID !in {"1", "2", "3"} ==> resp == Response(StatusBadRequest, UnknownUser)
  {
    var l := new LoggerAdapter();
    var ds := NewSimpleDataStore();
    var logic := new SimpleLogic(l, ds);
    var c := new Controller(l, logic);
    resp := c.HandleGreeting(userID);
    log := l.entries;
  }
}
