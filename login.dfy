/**
 * The login screen of the application window (`app.py`): fixed administrator
 * credentials, checked first, then the active counters, whose cashier name is compared
 * without regard to case and whose password is compared exactly.
 */
module Login {
  import opened Wrappers
  import opened Text
  import opened Seqs
  import opened Ledger

  const ADMIN_NAME: string := "admin"
  const ADMIN_PASSWORD: string := "123"
  const ADMIN_ROLE: string := "admin"
  const CASHIER_ROLE: string := "cashier"

  /** The comparison `login` makes against one counter. */
  predicate Matches(c: Counter, username: string, password: string) {
    Lower(c.cashierName) == Lower(username) && c.password == password
  }

  /** The position of the first counter in `cs` that the credentials match. */
  function FirstMatch(cs: seq<Counter>, username: string, password: string): (r: Option<nat>)
    ensures r.None? <==> forall i :: 0 <= i < |cs| ==> !Matches(cs[i], username, password)
    ensures r.Some? ==>
      r.value < |cs| && Matches(cs[r.value], username, password) &&
      forall j :: 0 <= j < r.value ==> !Matches(cs[j], username, password)
  {
    if cs == [] then None
    else if Matches(cs[0], username, password) then Some(0)
    else match FirstMatch(cs[1..], username, password)
      case None => None
      case Some(i) => Some(i + 1)
  }

  datatype LoginOutcome =
    | MissingCredentials               // "Please enter both username and password"
    | LoggedIn(user: string, role: string)
    | Incorrect                        // "Incorrect username or password"

  /** An active stored counter with key `k` that the credentials match. */
  predicate ActiveMatch(d: CounterData, k: int, username: string, password: string) {
    k in d.counters.rows && d.counters.rows[k].status == ACTIVE &&
    Matches(d.counters.rows[k], username, password)
  }

  /** When the scan finds no match, no active stored counter matches. */
  lemma NoActiveMatch(d: CounterData, username: string, password: string)
    requires d.Valid() && FirstMatch(d.GetCounters(true), username, password).None?
    ensures forall k :: !ActiveMatch(d, k, username, password)
  {
    var cs := d.GetCounters(true);
    forall k | k in d.counters.rows && d.counters.rows[k].status == ACTIVE ensures d.counters.rows[k] in cs {
      assert d.counters.Holds(d.counters.rows[k]);
    }
  }

  /** The match the scan finds is the active matching counter of lowest id. */
  lemma LowestActiveMatch(d: CounterData, username: string, password: string, i: nat)
    requires d.Valid() && FirstMatch(d.GetCounters(true), username, password) == Some(i)
    ensures var cs := d.GetCounters(true);
      i < |cs| && ActiveMatch(d, cs[i].id, username, password) && d.counters.rows[cs[i].id] == cs[i] &&
      forall j :: ActiveMatch(d, j, username, password) ==> cs[i].id <= j
  {
    var cs := d.GetCounters(true);
    assert cs[i] in cs;
    var k := cs[i].id;
    forall j | ActiveMatch(d, j, username, password) ensures k <= j {
      assert d.counters.Holds(d.counters.rows[j]);
      var p :| 0 <= p < |cs| && cs[p] == d.counters.rows[j];
      assert Matches(cs[p], username, password);
      assert p >= i;
      if p > i {
        assert CounterId(cs[i]) < CounterId(cs[p]);
      }
    }
  }

  /**
   * What `login` decides: empty entries fail; the administrator credentials win before any
   * counter is looked at; otherwise the active counter of lowest id that matches logs in
   * under its stored name with the cashier role, and with none the login fails.
   */
  function LoginResult(d: CounterData, username: string, password: string): (r: LoginOutcome)
    requires d.Valid()
    ensures r == MissingCredentials <==> username == [] || password == []
    ensures r == LoggedIn(ADMIN_NAME, ADMIN_ROLE) <==>
      username == ADMIN_NAME && password == ADMIN_PASSWORD
    ensures r.LoggedIn? && r.role == CASHIER_ROLE ==>
      exists k :: ActiveMatch(d, k, username, password) && r.user == d.counters.rows[k].cashierName &&
        forall j :: ActiveMatch(d, j, username, password) ==> k <= j
    ensures r == Incorrect <==>
      username != [] && password != [] && !(username == ADMIN_NAME && password == ADMIN_PASSWORD) &&
      forall k :: !ActiveMatch(d, k, username, password)
    ensures r.LoggedIn? ==> r.role == ADMIN_ROLE || r.role == CASHIER_ROLE
  {
    if username == [] || password == [] then MissingCredentials
    else if username == ADMIN_NAME && password == ADMIN_PASSWORD then LoggedIn(ADMIN_NAME, ADMIN_ROLE)
    else
      var cs := d.GetCounters(true);
      match FirstMatch(cs, username, password)
      case None =>
        NoActiveMatch(d, username, password);
        Incorrect
      case Some(i) =>
        LowestActiveMatch(d, username, password, i);
        LoggedIn(cs[i].cashierName, CASHIER_ROLE)
  }

  /** Past the empty and administrator checks, the outcome is that of the scan over the active counters. */
  lemma LoginByScan(d: CounterData, username: string, password: string)
    requires d.Valid() && username != [] && password != []
    requires !(username == ADMIN_NAME && password == ADMIN_PASSWORD)
    ensures var cs := d.GetCounters(true);
      LoginResult(d, username, password) ==
        match FirstMatch(cs, username, password)
        case None => Incorrect
        case Some(i) => LoggedIn(cs[i].cashierName, CASHIER_ROLE)
  {
  }

  /**
   * Every active counter can log in with its own name, typed in any case, and its
   * password, unless those are the administrator's credentials; the session is then that
   * of a counter whose name differs from the typed one at most in case.
   */
  lemma CounterCanLogIn(d: CounterData, k: int, typed: string)
    requires d.Valid() && k in d.counters.rows && d.counters.rows[k].status == ACTIVE
    requires Lower(typed) == Lower(d.counters.rows[k].cashierName)
    requires typed != [] && d.counters.rows[k].password != []
    requires !(typed == ADMIN_NAME && d.counters.rows[k].password == ADMIN_PASSWORD)
    ensures LoginResult(d, typed, d.counters.rows[k].password).LoggedIn?
    ensures LoginResult(d, typed, d.counters.rows[k].password).role == CASHIER_ROLE
    ensures Lower(LoginResult(d, typed, d.counters.rows[k].password).user) == Lower(typed)
  {
    var password := d.counters.rows[k].password;
    assert ActiveMatch(d, k, typed, password);
    var r := LoginResult(d, typed, password);
    assert r != Incorrect;
    var j :| ActiveMatch(d, j, typed, password) && r.user == d.counters.rows[j].cashierName;
  }

  /** The loop of `login` over the active counters: the position of the first one the credentials match. */
  method FindCounter(cashiers: seq<Counter>, username: string, password: string) returns (found: Option<nat>)
    ensures found == FirstMatch(cashiers, username, password)
  {
    for i := 0 to |cashiers|
      invariant forall j :: 0 <= j < i ==> !Matches(cashiers[j], username, password)
    {
      if Lower(cashiers[i].cashierName) == Lower(username) && cashiers[i].password == password {
        assert FirstMatch(cashiers, username, password) == Some(i);
        return Some(i);
      }
    }
    found := None;
  }

  /** The application window's record of who is logged in. */
  class Session {
    const counterDb: CounterDB
    var currentUser: Option<string>
    var currentRole: Option<string>

    constructor (counterDb: CounterDB)
      ensures this.counterDb == counterDb && currentUser == None && currentRole == None
    {
      this.counterDb := counterDb;
      currentUser := None;
      currentRole := None;
    }

    /**
     * `login`: the checks in order, then the counters loop, which stops at the first match.
     * A failed login leaves the session as it was.
     */
    method LogIn(username: string, password: string) returns (outcome: LoginOutcome)
      requires counterDb.data.Valid()
      modifies this
      ensures outcome == LoginResult(counterDb.data, username, password)
      ensures outcome.LoggedIn? ==> currentUser == Some(outcome.user) && currentRole == Some(outcome.role)
      ensures !outcome.LoggedIn? ==> currentUser == old(currentUser) && currentRole == old(currentRole)
    {
      if username == [] || password == [] {
        return MissingCredentials;
      }
      if username == ADMIN_NAME && password == ADMIN_PASSWORD {
        currentUser := Some(username);
        currentRole := Some(ADMIN_ROLE);
        return LoggedIn(ADMIN_NAME, ADMIN_ROLE);
      }
      var cashiers := counterDb.data.GetCounters(true);
      var found := FindCounter(cashiers, username, password);
      LoginByScan(counterDb.data, username, password);
      if found.None? {
        return Incorrect;
      }
      var name := cashiers[found.value].cashierName;
      currentUser := Some(name);
      currentRole := Some(CASHIER_ROLE);
      outcome := LoggedIn(name, CASHIER_ROLE);
    }
  }
}
