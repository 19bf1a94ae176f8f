/**
 src/app/modules/auth/user.auth.service.ts: generateLoginMessage and walletLogin over a shared table. A login runs as
 separate steps (look-up, check, delete) between which any other request may run.
 */
module LoginNonces {
  import opened Wrappers
  import opened Slugs

  const STATUS_INACTIVE := 0
  const STATUS_ACTIVE := 1
  const STATUS_SUSPENDED := 10

  /** `user` is the wallet that identifies the account; wallets are unique. */
  datatype Row = Row(user: string, nonce: string)

  /** How far one login has come; `row` and `status` are what its look-up read. */
  datatype Session =
    | Found(rowId: nat, row: Row, status: int, address: string)
    | Verified(rowId: nat, row: Row, status: int, address: string)
    | LoggedIn(row: Row)
    | Refused

  datatype State = State(
    users: map<string, int>,
    rows: map<nat, Row>,
    nextRow: nat,
    sessions: map<nat, Session>)

  datatype Step =
    | Generate(address: string, nonce: string)
    // `choice` is the row that findFirst happens to return.
    | LookUp(session: nat, address: string, nonce: string, choice: Option<nat>)
    | Verify(session: nat, signer: string)
    | Delete(session: nat)
    | SetStatus(user: string, status: int)

  predicate SameWallet(a: string, b: string) {
    ToLower(a) == ToLower(b)
  }

  /** checkUserStatus throws for these two and lets everything else pass. */
  predicate StatusRefused(status: int) {
    status == STATUS_SUSPENDED || status == STATUS_INACTIVE
  }

  /** The row is one that findFirst may return. */
  predicate Matches(st: State, id: nat, address: string, nonce: string) {
    && id in st.rows && st.rows[id].nonce == nonce
    && st.rows[id].user in st.users && SameWallet(st.rows[id].user, address)
  }

  /** connectOrCreate: an account with exactly this wallet, or a new active one. */
  function WithUser(users: map<string, int>, address: string): map<string, int> {
    if address in users then users else users[address := STATUS_ACTIVE]
  }

  /** The row is written before the status is checked, so it stays even if the caller gets no message. */
  function GenerateRow(st: State, address: string, nonce: string): (State, bool) {
    var users := WithUser(st.users, address);
    (st.(users := users, rows := st.rows[st.nextRow := Row(address, nonce)], nextRow := st.nextRow + 1),
     !StatusRefused(users[address]))
  }

  /** The row that a step adds to the table, if any. */
  function Created(st: State, step: Step): multiset<Row> {
    if step.Generate? then multiset{Row(step.address, step.nonce)} else multiset{}
  }

  /** The rows whose message was handed back to the caller. */
  function Returned(st: State, step: Step): multiset<Row> {
    if step.Generate? && GenerateRow(st, step.address, step.nonce).1 then Created(st, step) else multiset{}
  }

  predicate GrantsLogin(st: State, step: Step) {
    && step.Delete? && step.session in st.sessions && st.sessions[step.session].Verified?
    && st.sessions[step.session].rowId in st.rows
  }

  /** The row for which a step issues a token. */
  function Granted(st: State, step: Step): multiset<Row> {
    if GrantsLogin(st, step) then multiset{st.sessions[step.session].row} else multiset{}
  }

  function Apply(st: State, step: Step): State {
    match step
    case Generate(address, nonce) => GenerateRow(st, address, nonce).0
    case LookUp(session, address, nonce, choice) =>
      if session in st.sessions then st
      else
        var found :=
          match choice
          case None => Refused
          case Some(id) =>
            if Matches(st, id, address, nonce)
            then Found(id, st.rows[id], st.users[st.rows[id].user], address)
            else Refused;
        st.(sessions := st.sessions[session := found])
    case Verify(session, signer) =>
      if session !in st.sessions || !st.sessions[session].Found? then st
      else
        var s := st.sessions[session];
        var next := if !StatusRefused(s.status) && signer == s.address
                    then Verified(s.rowId, s.row, s.status, s.address) else Refused;
        st.(sessions := st.sessions[session := next])
    case Delete(session) =>
      if session !in st.sessions || !st.sessions[session].Verified? then st
      else
        var s := st.sessions[session];
        // Deleting a row that is gone throws, and no token is issued.
        if s.rowId in st.rows
        then st.(rows := st.rows - {s.rowId}, sessions := st.sessions[session := LoggedIn(s.row)])
        else st.(sessions := st.sessions[session := Refused])
    case SetStatus(user, status) =>
      if user in st.users then st.(users := st.users[user := status]) else st
  }

  function Run(st: State, steps: seq<Step>): State
    decreases |steps|
  {
    if steps == [] then st else Run(Apply(st, steps[0]), steps[1..])
  }

  // ----- the service: one method per uninterrupted piece of a request -----

  class UserAuthService {
    var users: map<string, int>
    var rows: map<nat, Row>
    var nextRow: nat
    var sessions: map<nat, Session>

    function View(): State
      reads this
    {
      State(users, rows, nextRow, sessions)
    }

    constructor (registered: map<string, int>)
      ensures View() == Initial(registered)
    {
      users, rows, nextRow, sessions := registered, map[], 0, map[];
    }

    /** The message is returned unless the status check throws; the row has been inserted in either case. */
    method GenerateLoginMessage(address: string, nonce: string) returns (issued: bool)
      modifies this
      ensures View() == Apply(old(View()), Generate(address, nonce))
      ensures issued == (Returned(old(View()), Generate(address, nonce)) != multiset{})
      ensures rows == old(rows)[old(nextRow) := Row(address, nonce)]
    {
      if address !in users {
        users := users[address := STATUS_ACTIVE];
      }
      rows := rows[nextRow := Row(address, nonce)];
      nextRow := nextRow + 1;
      issued := !StatusRefused(users[address]);
    }

    /** A login begins only once; it is under way afterwards exactly if it has found a row to read. */
    method BeginLogin(session: nat, address: string, nonce: string, choice: Option<nat>)
      modifies `sessions
      ensures View() == Apply(old(View()), LookUp(session, address, nonce, choice))
      ensures forall k :: k in old(sessions) ==> k in sessions && sessions[k] == old(sessions)[k]
      ensures session !in old(sessions) ==>
                if choice.Some? && Matches(View(), choice.value, address, nonce) then
                  var row := rows[choice.value];
                  && row.nonce == nonce && SameWallet(row.user, address)
                  && sessions[session] == Found(choice.value, row, users[row.user], address)
                else sessions[session] == Refused
    {
      if session in sessions {
        return;
      }
      if choice.Some? && Matches(View(), choice.value, address, nonce) {
        var row := rows[choice.value];
        sessions := sessions[session := Found(choice.value, row, users[row.user], address)];
      } else {
        sessions := sessions[session := Refused];
      }
    }

    /**
     Of a login that has found its row: it is verified exactly if the status it has read passes, whatever the status is
     now, and the signer is the address it named; otherwise it is over.
     */
    method CheckLogin(session: nat, signer: string)
      modifies `sessions
      ensures View() == Apply(old(View()), Verify(session, signer))
      ensures sessions.Keys == old(sessions).Keys
      ensures forall k :: k in sessions && (k != session || !old(sessions)[k].Found?) ==>
                sessions[k] == old(sessions)[k]
      ensures session in sessions && old(sessions)[session].Found? ==>
                var s, s' := old(sessions)[session], sessions[session];
                && (s'.Verified? <==>
                      s.status != STATUS_INACTIVE && s.status != STATUS_SUSPENDED && signer == s.address)
                && (if s'.Verified? then s' == Verified(s.rowId, s.row, s.status, s.address) else s'.Refused?)
    {
      if session !in sessions || !sessions[session].Found? {
        return;
      }
      var s := sessions[session];
      if StatusRefused(s.status) || signer != s.address {
        sessions := sessions[session := Refused];
      } else {
        sessions := sessions[session := Verified(s.rowId, s.row, s.status, s.address)];
      }
    }

    /** The user of the token, if the row was still there to be deleted. */
    method FinishLogin(session: nat) returns (token: Option<string>)
      modifies this
      ensures View() == Apply(old(View()), Delete(session))
      ensures token.Some? <==> GrantsLogin(old(View()), Delete(session))
      ensures token.Some? ==> token.value == old(sessions)[session].row.user
    {
      token := None;
      if session !in sessions || !sessions[session].Verified? {
        return;
      }
      var s := sessions[session];
      if s.rowId in rows {
        rows := rows - {s.rowId};
        sessions := sessions[session := LoggedIn(s.row)];
        token := Some(s.row.user);
      } else {
        sessions := sessions[session := Refused];
      }
    }
  }

  /** Any accounts, no row and no login under way. */
  function Initial(users: map<string, int>): State {
    State(users, map[], 0, map[])
  }

  // ----- every interleaving -----

  /** Ids are fresh, sessions remember rows as they were inserted, and a verified session passed both checks. */
  ghost predicate Consistent(st: State) {
    && (forall id :: id in st.rows ==> id < st.nextRow && st.rows[id].user in st.users)
    && (forall s :: s in st.sessions ==> SessionOk(st, st.sessions[s]))
  }

  ghost predicate SessionOk(st: State, s: Session) {
    s.Found? || s.Verified? ==>
      && s.rowId < st.nextRow && (s.rowId in st.rows ==> st.rows[s.rowId] == s.row)
      && s.row.user in st.users && SameWallet(s.row.user, s.address)
      && (s.Verified? ==> !StatusRefused(s.status))
  }

  lemma StepIsConsistent(st: State, step: Step)
    requires Consistent(st)
    ensures Consistent(Apply(st, step))
  {
    hide SameWallet;
    match step {
      case Generate(_, _) =>
      case LookUp(_, _, _, _) =>
      case Verify(_, _) =>
      case Delete(_) =>
      case SetStatus(_, _) =>
    }
  }

  /** The rows that are live. */
  ghost function Live(rows: map<nat, Row>): multiset<Row> {
    Bag(rows, rows.Keys)
  }

  ghost function Bag(rows: map<nat, Row>, ids: set<nat>): multiset<Row>
    requires ids <= rows.Keys
  {
    if ids == {} then multiset{}
    else
      var id :| id in ids;
      multiset{rows[id]} + Bag(rows, ids - {id})
  }

  lemma {:induction false} BagExcept(rows: map<nat, Row>, ids: set<nat>, id: nat)
    requires id in ids && ids <= rows.Keys
    ensures Bag(rows, ids) == multiset{rows[id]} + Bag(rows, ids - {id})
    decreases |ids|
  {
    var other :| other in ids && Bag(rows, ids) == multiset{rows[other]} + Bag(rows, ids - {other});
    if other != id {
      BagExcept(rows, ids - {other}, id);
      BagExcept(rows, ids - {id}, other);
      assert ids - {other} - {id} == ids - {id} - {other};
    }
  }

  lemma {:induction false} BagDependsOnRows(rows: map<nat, Row>, rows': map<nat, Row>, ids: set<nat>)
    requires ids <= rows.Keys && ids <= rows'.Keys && forall id :: id in ids ==> rows[id] == rows'[id]
    ensures Bag(rows, ids) == Bag(rows', ids)
    decreases |ids|
  {
    if ids != {} {
      var id :| id in ids;
      BagExcept(rows, ids, id);
      BagExcept(rows', ids, id);
      BagDependsOnRows(rows, rows', ids - {id});
    }
  }

  lemma InsertedRowIsLive(rows: map<nat, Row>, id: nat, row: Row)
    requires id !in rows
    ensures Live(rows[id := row]) == Live(rows) + multiset{row}
  {
    var rows' := rows[id := row];
    BagExcept(rows', rows'.Keys, id);
    assert rows'.Keys - {id} == rows.Keys;
    BagDependsOnRows(rows, rows', rows.Keys);
  }

  lemma DeletedRowIsGone(rows: map<nat, Row>, id: nat)
    requires id in rows
    ensures Live(rows) == Live(rows - {id}) + multiset{rows[id]}
  {
    InsertedRowIsLive(rows - {id}, id, rows[id]);
    assert (rows - {id})[id := rows[id]] == rows;
  }

  /** One step: what is created is either still live afterwards or was granted. */
  lemma StepBalance(st: State, step: Step)
    requires Consistent(st)
    ensures Live(st.rows) + Created(st, step) == Live(Apply(st, step).rows) + Granted(st, step)
  {
    hide SameWallet, Bag;
    match step {
      case Generate(address, nonce) =>
        InsertedRowIsLive(st.rows, st.nextRow, Row(address, nonce));
      case Delete(session) =>
        if GrantsLogin(st, step) {
          DeletedRowIsGone(st.rows, st.sessions[session].rowId);
        }
      case _ =>
    }
  }

  ghost function AllCreated(st: State, steps: seq<Step>): multiset<Row>
    decreases |steps|
  {
    if steps == [] then multiset{} else Created(st, steps[0]) + AllCreated(Apply(st, steps[0]), steps[1..])
  }

  ghost function AllReturned(st: State, steps: seq<Step>): multiset<Row>
    decreases |steps|
  {
    if steps == [] then multiset{} else Returned(st, steps[0]) + AllReturned(Apply(st, steps[0]), steps[1..])
  }

  ghost function AllGranted(st: State, steps: seq<Step>): multiset<Row>
    decreases |steps|
  {
    if steps == [] then multiset{} else Granted(st, steps[0]) + AllGranted(Apply(st, steps[0]), steps[1..])
  }

  lemma {:induction false} RunBalance(st: State, steps: seq<Step>)
    requires Consistent(st)
    ensures Consistent(Run(st, steps))
    ensures Live(st.rows) + AllCreated(st, steps) == Live(Run(st, steps).rows) + AllGranted(st, steps)
    decreases |steps|
  {
    hide Apply, Created, Granted, Live, Consistent;
    if steps != [] {
      var next := Apply(st, steps[0]);
      StepIsConsistent(st, steps[0]);
      StepBalance(st, steps[0]);
      RunBalance(next, steps[1..]);
      var created, granted := AllCreated(next, steps[1..]), AllGranted(next, steps[1..]);
      var live, last := Live(next.rows), Live(Run(st, steps).rows);
      assert Live(st.rows) + (Created(st, steps[0]) + created) == (Live(st.rows) + Created(st, steps[0])) + created;
      assert (live + Granted(st, steps[0])) + created == (live + created) + Granted(st, steps[0]);
      assert (last + granted) + Granted(st, steps[0]) == last + (Granted(st, steps[0]) + granted);
    }
  }

  /**
   Under every interleaving the rows there were and the rows inserted are exactly those still live plus those for which
   a token was issued; so for every user and nonce there are never more logins than rows.
   */
  lemma LoginsNeverExceedRows(st: State, steps: seq<Step>, row: Row)
    requires Consistent(st)
    ensures Live(st.rows) + AllCreated(st, steps) == Live(Run(st, steps).rows) + AllGranted(st, steps)
    ensures AllGranted(st, steps)[row] <= Live(st.rows)[row] + AllCreated(st, steps)[row]
  {
    hide Consistent;
    RunBalance(st, steps);
    var had, has := Live(st.rows) + AllCreated(st, steps), Live(Run(st, steps).rows) + AllGranted(st, steps);
    assert had[row] == has[row];
  }

  /** The number of tokens issued for the row with the given id. */
  ghost function TokensFor(st: State, steps: seq<Step>, id: nat): nat
    decreases |steps|
  {
    if steps == [] then 0
    else (if GrantsLogin(st, steps[0]) && st.sessions[steps[0].session].rowId == id then 1 else 0)
         + TokensFor(Apply(st, steps[0]), steps[1..], id)
  }

  /** A row yields at most one token, and none once it is gone. */
  lemma {:induction false} OneTokenPerRow(st: State, steps: seq<Step>, id: nat)
    requires Consistent(st)
    ensures TokensFor(st, steps, id) <= (if id in st.rows || id >= st.nextRow then 1 else 0)
    decreases |steps|
  {
    hide SameWallet;
    if steps != [] {
      StepIsConsistent(st, steps[0]);
      StepRowIds(st, steps[0], id);
      OneTokenPerRow(Apply(st, steps[0]), steps[1..], id);
    }
  }

  lemma StepRowIds(st: State, step: Step, id: nat)
    requires Consistent(st)
    ensures var st' := Apply(st, step);
            var was, now := id in st.rows || id >= st.nextRow, id in st'.rows || id >= st'.nextRow;
            && (now ==> was)
            && (GrantsLogin(st, step) && st.sessions[step.session].rowId == id ==> was && !now)
  {
    hide SameWallet;
  }

  /** Equal but for the case of ASCII letters. */
  predicate EqualUpToCase(a: string, b: string) {
    |a| == |b| && forall i :: 0 <= i < |a| ==> a[i] == b[i] || IsOtherCase(a[i], b[i]) || IsOtherCase(b[i], a[i])
  }

  predicate IsOtherCase(lower: char, upper: char) {
    'a' <= lower <= 'z' && 'A' <= upper <= 'Z' && lower - 'a' == upper - 'A'
  }

  /** A wallet is found under any casing, and under nothing else. */
  lemma AnyCasingFinds(st: State, id: nat, address: string, nonce: string)
    requires Consistent(st) && id in st.rows
    ensures Matches(st, id, address, nonce) <==> st.rows[id].nonce == nonce && EqualUpToCase(st.rows[id].user, address)
  {
    var user := st.rows[id].user;
    if ToLower(user) == ToLower(address) {
      forall i | 0 <= i < |user|
        ensures user[i] == address[i] || IsOtherCase(user[i], address[i]) || IsOtherCase(address[i], user[i])
      {
        assert ToLower(user)[i] == ToLower(address)[i];
      }
    }
  }

  // ----- who gets a token -----

  /** Step `i` is the look-up by which login `k` came to read what `s` remembers. */
  ghost predicate LookedUp(start: State, steps: seq<Step>, k: nat, s: Session, i: nat)
    requires s.Found? || s.Verified?
  {
    && i < |steps| && steps[i].LookUp? && steps[i].session == k
    && steps[i].address == s.address && steps[i].choice == Some(s.rowId)
    && var st := Run(start, steps[..i]);
    && Matches(st, s.rowId, s.address, steps[i].nonce)
    && st.rows[s.rowId] == s.row && st.users[s.row.user] == s.status
  }

  lemma {:induction false} RunSnoc(st: State, steps: seq<Step>, last: Step)
    ensures Run(st, steps + [last]) == Apply(Run(st, steps), last)
    decreases |steps|
  {
    hide Apply;
    if steps == [] {
      assert [] + [last] == [last] && [last][1..] == [];
    } else {
      assert (steps + [last])[1..] == steps[1..] + [last];
      RunSnoc(Apply(st, steps[0]), steps[1..], last);
    }
  }

  /** How one step can bring a login to where it is. */
  lemma StepSession(st: State, step: Step, k: nat)
    requires k in Apply(st, step).sessions
    requires Apply(st, step).sessions[k].Found? || Apply(st, step).sessions[k].Verified?
    ensures var s := Apply(st, step).sessions[k];
            || (k in st.sessions && st.sessions[k] == s)
            || (&& k !in st.sessions && s.Found? && step.LookUp? && step.session == k
                && step.address == s.address && step.choice == Some(s.rowId)
                && Matches(st, s.rowId, s.address, step.nonce)
                && st.rows[s.rowId] == s.row && st.users[s.row.user] == s.status)
            || (&& k in st.sessions && s == Verified(s.rowId, s.row, s.status, s.address)
                && st.sessions[k] == Found(s.rowId, s.row, s.status, s.address)
                && step == Verify(k, s.address) && !StatusRefused(s.status))
  {
    hide SameWallet;
  }

  /** A login under way has been looked up earlier in the run, and a verified one has been verified after that. */
  lemma {:induction false} SessionHistory(start: State, steps: seq<Step>, k: nat) returns (i: nat, j: nat)
    requires k !in start.sessions && k in Run(start, steps).sessions
    requires Run(start, steps).sessions[k].Found? || Run(start, steps).sessions[k].Verified?
    ensures var s := Run(start, steps).sessions[k];
            && LookedUp(start, steps, k, s, i)
            && (s.Verified? ==> i < j < |steps| && steps[j] == Verify(k, s.address) && !StatusRefused(s.status))
    decreases |steps|
  {
    hide Apply, Matches;
    var n := |steps| - 1;
    var front, last := steps[..n], steps[n];
    assert steps == front + [last];
    RunSnoc(start, front, last);
    StepSession(Run(start, front), last, k);
    if k !in Run(start, front).sessions {
      i, j := n, n;
    } else {
      i, j := SessionHistory(start, front, k);
      assert front[..i] == steps[..i];
      if Run(start, front).sessions[k] != Run(start, steps).sessions[k] {
        j := n;
      }
    }
  }

  /**
   In every interleaving a token is issued only to a login that named an address and a nonce, found a row with that
   nonce for the account of that address while the account was neither inactive nor suspended, and then presented a
   signature by that very address; the token is for the account of the row, which is consumed only now.
   */
  lemma GrantsAreChecked(start: State, steps: seq<Step>, k: nat) returns (i: nat, j: nat)
    requires Consistent(start) && k !in start.sessions && GrantsLogin(Run(start, steps), Delete(k))
    ensures i < j < |steps| && steps[i].LookUp? && steps[i].session == k && steps[i].choice.Some?
    ensures steps[j] == Verify(k, steps[i].address)
    ensures var id, row := steps[i].choice.value, Run(start, steps).sessions[k].row;
            var seen := Run(start, steps[..i]);
            && row.nonce == steps[i].nonce && SameWallet(row.user, steps[i].address)
            && id in seen.rows && seen.rows[id] == row
            && row.user in seen.users && seen.users[row.user] != STATUS_INACTIVE
            && seen.users[row.user] != STATUS_SUSPENDED
            && id in Run(start, steps).rows && Run(start, steps).rows[id] == row
            && Granted(Run(start, steps), Delete(k)) == multiset{row}
  {
    hide SameWallet;
    i, j := SessionHistory(start, steps, k);
    RunBalance(start, steps);
  }

  // ----- messages handed back -----

  /** No request for a message with this user and nonce is refused after its row has been inserted. */
  ghost predicate NoneRefused(st: State, steps: seq<Step>, row: Row)
    decreases |steps|
  {
    steps == [] || ((steps[0] == Generate(row.user, row.nonce) ==> GenerateRow(st, row.user, row.nonce).1)
                    && NoneRefused(Apply(st, steps[0]), steps[1..], row))
  }

  lemma {:induction false} ReturnedExactly(st: State, steps: seq<Step>, row: Row)
    ensures AllReturned(st, steps)[row] <= AllCreated(st, steps)[row]
    ensures AllReturned(st, steps)[row] == AllCreated(st, steps)[row] <==> NoneRefused(st, steps, row)
    decreases |steps|
  {
    hide Apply;
    if steps != [] {
      ReturnedExactly(Apply(st, steps[0]), steps[1..], row);
    }
  }

  ghost predicate NoGenerate(steps: seq<Step>) {
    forall s :: s in steps ==> !s.Generate?
  }

  lemma {:induction false} TracesConcat(st: State, a: seq<Step>, b: seq<Step>)
    ensures Run(st, a + b) == Run(Run(st, a), b)
    ensures AllCreated(st, a + b) == AllCreated(st, a) + AllCreated(Run(st, a), b)
    ensures AllReturned(st, a + b) == AllReturned(st, a) + AllReturned(Run(st, a), b)
    ensures AllGranted(st, a + b) == AllGranted(st, a) + AllGranted(Run(st, a), b)
    decreases |a|
  {
    hide Apply, Created, Returned, Granted;
    if a == [] {
      assert a + b == b;
    } else {
      assert (a + b)[0] == a[0] && (a + b)[1..] == a[1..] + b;
      TracesConcat(Apply(st, a[0]), a[1..], b);
    }
  }

  lemma {:induction false} NothingGenerated(st: State, steps: seq<Step>)
    requires NoGenerate(steps)
    ensures AllCreated(st, steps) == multiset{} && AllReturned(st, steps) == multiset{}
    decreases |steps|
  {
    hide Apply;
    if steps != [] {
      assert steps[0] in steps;
      NothingGenerated(Apply(st, steps[0]), steps[1..]);
    }
  }

  lemma {:induction false} LiveRowHasAnId(rows: map<nat, Row>, ids: set<nat>, row: Row) returns (id: nat)
    requires ids <= rows.Keys && Bag(rows, ids)[row] > 0
    ensures id in ids && rows[id] == row
    decreases |ids|
  {
    id :| id in ids;
    BagExcept(rows, ids, id);
    if rows[id] != row {
      id := LiveRowHasAnId(rows, ids - {id}, row);
    }
  }

  /** The account is made active and logs in with the given row. */
  function LogInWith(st: State, id: nat, k: nat): seq<Step>
    requires id in st.rows
  {
    var row := st.rows[id];
    [SetStatus(row.user, STATUS_ACTIVE), LookUp(k, row.user, row.nonce, Some(id)), Verify(k, row.user), Delete(k)]
  }

  lemma LogInConsumes(st: State, id: nat, k: nat)
    requires Consistent(st) && id in st.rows && k !in st.sessions
    ensures Run(st, LogInWith(st, id, k)).rows == st.rows - {id}
    ensures NoGenerate(LogInWith(st, id, k))
  {
    var row, steps := st.rows[id], LogInWith(st, id, k);
    var st1 := Apply(st, steps[0]);
    var st2 := Apply(st1, steps[1]);
    var st3 := Apply(st2, steps[2]);
    assert Matches(st1, id, row.user, row.nonce);
    assert st3.sessions[k] == Verified(id, row, STATUS_ACTIVE, row.user);
    RunOfFour(st, steps[0], steps[1], steps[2], steps[3]);
  }

  /** Such a login is granted, without a message. */
  lemma LogInGrants(st: State, id: nat, k: nat)
    requires Consistent(st) && id in st.rows && k !in st.sessions
    ensures AllGranted(st, LogInWith(st, id, k))[st.rows[id]] == 1
    ensures AllReturned(st, LogInWith(st, id, k)) == multiset{}
  {
    hide Consistent, Live, LogInWith, NoGenerate;
    var login := LogInWith(st, id, k);
    LogInConsumes(st, id, k);
    NothingGenerated(st, login);
    DeletedRowIsGone(st.rows, id);
    RunBalance(st, login);
    var had, has := Live(st.rows) + AllCreated(st, login), Live(st.rows - {id}) + AllGranted(st, login);
    assert had[st.rows[id]] == has[st.rows[id]];
  }

  lemma RunOfFour(st: State, a: Step, b: Step, c: Step, d: Step)
    ensures Run(st, [a, b, c, d]) == Apply(Apply(Apply(Apply(st, a), b), c), d)
  {
    hide Apply;
    assert [a, b, c] + [d] == [a, b, c, d] && [a, b] + [c] == [a, b, c] && [a] + [b] == [a, b] && [] + [a] == [a];
    RunSnoc(st, [a, b, c], d);
    RunSnoc(st, [a, b], c);
    RunSnoc(st, [a], b);
    RunSnoc(st, [], a);
  }

  lemma {:induction false} FreshNumber(used: set<nat>) returns (k: nat)
    ensures forall n :: n in used ==> n < k
    decreases |used|
  {
    k := 0;
    if used != {} {
      var n :| n in used;
      k := FreshNumber(used - {n});
      k := if k <= n then n + 1 else k;
      assert forall m :: m in used ==> m == n || m in used - {n};
    }
  }

  /** Without any new message every live row of the given user and nonce can still be turned into a login. */
  lemma {:induction false} LiveRowsCanLogIn(st: State, row: Row) returns (more: seq<Step>)
    requires Consistent(st)
    ensures NoGenerate(more) && Live(Run(st, more).rows)[row] == 0
    decreases Live(st.rows)[row]
  {
    hide Consistent, Apply, LogInWith;
    more := [];
    if Live(st.rows)[row] > 0 {
      var id := LiveRowHasAnId(st.rows, st.rows.Keys, row);
      var k := FreshNumber(st.sessions.Keys);
      var login := LogInWith(st, id, k);
      LogInConsumes(st, id, k);
      DeletedRowIsGone(st.rows, id);
      RunBalance(st, login);
      var rest := LiveRowsCanLogIn(Run(st, login), row);
      TracesConcat(st, login, rest);
      more := login + rest;
    }
  }

  lemma InitialIsConsistent(users: map<string, int>)
    ensures Consistent(Initial(users)) && Live(Initial(users).rows) == multiset{}
  {
  }

  /** What a run without new messages adds to the counts of one row. */
  lemma CountsAfter(users: map<string, int>, steps: seq<Step>, more: seq<Step>, row: Row)
    requires NoGenerate(more)
    ensures var st, all := Initial(users), steps + more;
            && Consistent(Run(st, steps))
            && AllReturned(st, all) == AllReturned(st, steps)
            && AllCreated(st, steps)[row]
               == Live(Run(Run(st, steps), more).rows)[row] + AllGranted(st, all)[row]
  {
    hide Consistent, NoGenerate, Live;
    var st := Initial(users);
    InitialIsConsistent(users);
    RunBalance(st, steps);
    LoginsNeverExceedRows(st, steps + more, row);
    TracesConcat(st, steps, more);
    NothingGenerated(Run(st, steps), more);
    var created, live := AllCreated(st, steps + more), Live(Run(st, steps + more).rows);
    assert multiset{} + created == created;
    assert created[row] == (live + AllGranted(st, steps + more))[row];
  }

  /**
   For a given user and nonce, logins never exceed the messages handed back, now and in every continuation without a new
   message, if and only if no request for such a message was refused.
   */
  lemma LoginsNeverExceedMessages(users: map<string, int>, steps: seq<Step>, row: Row)
    ensures NoneRefused(Initial(users), steps, row)
            <==> forall more | NoGenerate(more) ::
                   AllGranted(Initial(users), steps + more)[row] <= AllReturned(Initial(users), steps + more)[row]
  {
    hide Consistent, Live, NoneRefused, NoGenerate, AllGranted, AllReturned, AllCreated, Run;
    var st := Initial(users);
    ReturnedExactly(st, steps, row);
    forall more | NoGenerate(more)
      ensures AllGranted(st, steps + more)[row] <= AllCreated(st, steps)[row]
      ensures AllReturned(st, steps + more) == AllReturned(st, steps)
    {
      CountsAfter(users, steps, more, row);
    }
    CountsAfter(users, steps, [], row) by {
      NothingIsGenerated();
    }
    var more := LiveRowsCanLogIn(Run(st, steps), row);
    CountsAfter(users, steps, more, row);
  }

  lemma NothingIsGenerated()
    ensures NoGenerate([])
  {
  }

  /** An account is created by its first request, then suspended, and its next request is refused. */
  function RefusedRequest(): seq<Step> {
    [Generate("0xA", "000000"), SetStatus("0xA", STATUS_SUSPENDED), Generate("0xA", "123456")]
  }

  lemma RefusedRequestLeavesARow()
    ensures Run(Initial(map[]), RefusedRequest())
            == State(map["0xA" := STATUS_SUSPENDED],
                     map[0 := Row("0xA", "000000"), 1 := Row("0xA", "123456")], 2, map[])
    ensures AllReturned(Initial(map[]), RefusedRequest()) == multiset{Row("0xA", "000000")}
  {
    var steps, st := RefusedRequest(), Initial(map[]);
    var st1 := Apply(st, steps[0]);
    var st2 := Apply(st1, steps[1]);
    assert st1 == State(map["0xA" := STATUS_ACTIVE], map[0 := Row("0xA", "000000")], 1, map[]);
    assert st2 == State(map["0xA" := STATUS_SUSPENDED], map[0 := Row("0xA", "000000")], 1, map[]);
    assert steps[1..] == [steps[1], steps[2]] && steps[1..][1..] == [steps[2]] && [steps[2]][1..] == [];
    assert AllReturned(st2, [steps[2]]) == multiset{};
    assert AllReturned(st1, steps[1..]) == multiset{};
  }

  /**
   A refused request can lead to a login without a message: once the account is active again it logs in with the nonce
   of the row that the refused request has left behind.
   */
  lemma RowWithoutMessage() returns (steps: seq<Step>, row: Row)
    ensures AllReturned(Initial(map[]), steps)[row] == 0 < AllGranted(Initial(map[]), steps)[row]
  {
    hide Apply, Live, NoGenerate, LogInWith, Run;
    row := Row("0xA", "123456");
    var start := Initial(map[]);
    var st := Run(start, RefusedRequest());
    RefusedRequestLeavesARow();
    InitialIsConsistent(map[]);
    RunBalance(start, RefusedRequest());
    LogInGrants(st, 1, 0);
    var login := LogInWith(st, 1, 0);
    steps := RefusedRequest() + login;
    TracesConcat(start, RefusedRequest(), login);
    assert Row("0xA", "000000") != row;
  }
}
