/**
 The account-plan applier (services/nas_identity_sync.py, `apply_account_plan`): writes are ordered
 so that promotions precede demotions and deactivations, and are journalled so that an interrupted
 plan resumes.  Nobody else edits the identity provider between the runs of one plan.
 */
module Accounts {
  import opened Effects
  import opened Options
  import opened Journals

  type Name = string
  type Group = string

  const ADMIN := "nas_admin"
  const DISABLED := "nas_disabled"
  const RESERVED := {ADMIN, "nas_users", "nas_guests", DISABLED}
  const BOOTSTRAP := "akadmin"
  const GROUPS_STEP := "reserved-groups"
  const ACCOUNT_WORKFLOW := "authentik-account-plan"

  /** `managed` is the `nasManagedBySetup` attribute. */
  datatype User = User(active: bool, groups: set<Group>, managed: bool)

  /** A normalized plan entry. */
  datatype Account = Account(name: Name, active: bool, groups: set<Group>, password: bool)

  datatype Plan = Plan(accounts: seq<Account>, deactivateMissing: bool)

  /** What plan normalization guarantees. */
  ghost predicate Normalized(plan: Plan, safe: set<Name>) {
    && (forall a <- plan.accounts :: a.name in safe && a.name != BOOTSTRAP && a.groups <= RESERVED)
    && (forall a <- plan.accounts :: !a.active ==> a.groups == {DISABLED})
    && (forall i, j :: 0 <= i < j < |plan.accounts| ==> plan.accounts[i].name != plan.accounts[j].name)
  }

  predicate WantsAdmin(a: Account) { a.active && ADMIN in a.groups }

  predicate IsAdmin(u: User) { u.active && ADMIN in u.groups }

  /** Enabled administrators, counting only the usernames in `safe`. */
  function Admins(users: map<Name, User>, safe: set<Name>): set<Name> {
    set n | n in users && n in safe && IsAdmin(users[n])
  }

  function Names(accounts: seq<Account>): set<Name> { set a | a in accounts :: a.name }

  predicate Doomed(plan: Plan, users: map<Name, User>, n: Name) {
    plan.deactivateMissing && n in users && n !in Names(plan.accounts) && n != BOOTSTRAP && users[n].managed
  }

  /** The administrators the plan ends with, computed before anything is written. */
  function Resulting(plan: Plan, users: map<Name, User>, safe: set<Name>): set<Name> {
    (set a | a in plan.accounts && WantsAdmin(a) :: a.name)
    + (set n | n in Admins(users, safe) && n !in Names(plan.accounts) && !Doomed(plan, users, n))
  }

  function Rank(a: Account, current: set<Name>): nat {
    if WantsAdmin(a) then 0 else if a.name in current then 2 else 1
  }

  function OfRank(accounts: seq<Account>, current: set<Name>, r: nat): (s: seq<Account>)
    ensures forall a :: a in s <==> a in accounts && Rank(a, current) == r
  {
    if accounts == [] then []
    else (if Rank(accounts[0], current) == r then [accounts[0]] else []) + OfRank(accounts[1..], current, r)
  }

  /** The stable sort by rank. */
  function Ordered(accounts: seq<Account>, current: set<Name>): seq<Account> {
    OfRank(accounts, current, 0) + (OfRank(accounts, current, 1) + OfRank(accounts, current, 2))
  }

  /** The sort keeps every account as often as the plan has it. */
  lemma {:induction false} OrderedIsPermutation(accounts: seq<Account>, current: set<Name>)
    ensures multiset(Ordered(accounts, current)) == multiset(accounts)
  {
    if accounts != [] {
      OrderedIsPermutation(accounts[1..], current);
      assert accounts == [accounts[0]] + accounts[1..];
    }
  }

  lemma OfRankFrom(accounts: seq<Account>, current: set<Name>, r: nat, k: nat) returns (q: nat)
    requires k < |OfRank(accounts, current, r)|
    ensures q < |accounts| && accounts[q] == OfRank(accounts, current, r)[k]
  {
    assert OfRank(accounts, current, r)[k] in accounts;
    q :| 0 <= q < |accounts| && accounts[q] == OfRank(accounts, current, r)[k];
  }

  lemma OfRankCons(accounts: seq<Account>, current: set<Name>, r: nat, k: nat)
    requires accounts != [] && k < |OfRank(accounts, current, r)|
    ensures var rest := OfRank(accounts[1..], current, r);
      if Rank(accounts[0], current) != r then k < |rest| && OfRank(accounts, current, r)[k] == rest[k]
      else if k > 0 then k - 1 < |rest| && OfRank(accounts, current, r)[k] == rest[k - 1]
      else OfRank(accounts, current, r)[k] == accounts[0]
  {
  }

  /** Accounts of one rank stay in the order of the plan. */
  lemma {:induction false} OfRankIsStable(accounts: seq<Account>, current: set<Name>, r: nat, i: nat, k: nat)
      returns (p: nat, q: nat)
    requires i < k < |OfRank(accounts, current, r)|
    ensures p < q < |accounts| && accounts[p] == OfRank(accounts, current, r)[i] && accounts[q] == OfRank(accounts, current, r)[k]
  {
    OfRankCons(accounts, current, r, i);
    OfRankCons(accounts, current, r, k);
    if Rank(accounts[0], current) != r {
      p, q := OfRankIsStable(accounts[1..], current, r, i, k);
      p, q := p + 1, q + 1;
    } else if i > 0 {
      p, q := OfRankIsStable(accounts[1..], current, r, i - 1, k - 1);
      p, q := p + 1, q + 1;
    } else {
      q := OfRankFrom(accounts[1..], current, r, k - 1);
      p, q := 0, q + 1;
    }
  }

  lemma OrderedHolds(accounts: seq<Account>, current: set<Name>, a: Account)
    ensures a in Ordered(accounts, current) <==> a in accounts
  {
    assert Rank(a, current) == 0 || Rank(a, current) == 1 || Rank(a, current) == 2;
  }

  lemma OrderedByRank(accounts: seq<Account>, current: set<Name>, i: nat, k: nat)
    requires i < k < |Ordered(accounts, current)|
    ensures Rank(Ordered(accounts, current)[i], current) <= Rank(Ordered(accounts, current)[k], current)
    ensures var a, b := Ordered(accounts, current)[i], Ordered(accounts, current)[k];
      && (b.active && "nas_admin" in b.groups ==> a.active && "nas_admin" in a.groups)
      && (a.name in current && !(a.active && "nas_admin" in a.groups) ==>
            b.name in current && !(b.active && "nas_admin" in b.groups))
  {
    var zero, rest := OfRank(accounts, current, 0), OfRank(accounts, current, 1) + OfRank(accounts, current, 2);
    if i < |zero| {
      assert Ordered(accounts, current)[i] in zero;
    } else {
      var one, two := OfRank(accounts, current, 1), OfRank(accounts, current, 2);
      assert Ordered(accounts, current)[i] == rest[i - |zero|] && Ordered(accounts, current)[k] == rest[k - |zero|];
      if i - |zero| < |one| {
        assert rest[i - |zero|] in one;
        assert rest[k - |zero|] in rest;
      } else {
        assert rest[i - |zero|] in two && rest[k - |zero|] == two[k - |zero| - |one|];
        assert rest[k - |zero|] in two;
      }
    }
  }

  function Target(a: Account, current: Option<User>): User {
    User(a.active, (if current.Some? then current.value.groups - RESERVED else {}) + a.groups, true)
  }

  function Retired(u: User): User {
    u.(active := false, groups := u.groups - RESERVED + {DISABLED})
  }

  function Lookup(users: map<Name, User>, n: Name): Option<User> {
    if n in users then Some(users[n]) else None
  }

  /** `a` has been written: the user exists, marked, with the account's activity and exactly its reserved roles. */
  predicate Applied(a: Account, users: map<Name, User>) {
    && a.name in users && users[a.name].active == a.active && users[a.name].groups * RESERVED == a.groups
    && users[a.name].managed
  }

  /** The user is deactivated, with no reserved role but the disabled one. */
  predicate Gone(u: User) { !u.active && u.groups * RESERVED == {DISABLED} }

  function AccountStep(n: Name): string { "account:" + n }
  function PasswordStep(n: Name): string { "password:" + n }
  function RetireStep(n: Name): string { "deactivate:" + n }

  /** The completed steps of the journal are still visible in the users. */
  ghost predicate Agrees(v: Value, plan: Plan, users: map<Name, User>) {
    && (forall a <- plan.accounts :: IsComplete(v, AccountStep(a.name)) ==> Applied(a, users))
    && (forall n <- users :: n !in Names(plan.accounts) && IsComplete(v, RetireStep(n)) ==> Gone(users[n]))
  }

  lemma StepNamesDiffer(m: Name, n: Name)
    ensures AccountStep(m) == AccountStep(n) ==> m == n
    ensures RetireStep(m) == RetireStep(n) ==> m == n
    ensures AccountStep(m) != PasswordStep(n) && AccountStep(m) != RetireStep(n) && RetireStep(m) != PasswordStep(n)
    ensures AccountStep(m) != GROUPS_STEP && RetireStep(m) != GROUPS_STEP
  {
    assert AccountStep(m)[|"account:"|..] == m && AccountStep(n)[|"account:"|..] == n;
    assert RetireStep(m)[|"deactivate:"|..] == m && RetireStep(n)[|"deactivate:"|..] == n;
    assert AccountStep(m)[0] == 'a' && RetireStep(m)[0] == 'd' && PasswordStep(n)[0] == 'p' && RetireStep(n)[0] == 'd';
    assert GROUPS_STEP[0] == 'r';
  }

  /** Marking `step` complete keeps agreement when what the step stands for is true of the users. */
  lemma MarkAgrees(v: Value, plan: Plan, users: map<Name, User>, step: string, result: string)
    requires Agrees(v, plan, users)
    requires forall a <- plan.accounts :: AccountStep(a.name) == step ==> Applied(a, users)
    requires forall n <- users :: RetireStep(n) == step && n !in Names(plan.accounts) ==> Gone(users[n])
    ensures Agrees(MarkComplete(v, step, result), plan, users)
  {
  }

  /** Only planned accounts and doomed users differ, and non-reserved roles never do. */
  ghost predicate Frame(plan: Plan, doomed: set<Name>, before: map<Name, User>, after: map<Name, User>) {
    && (forall n <- before :: n in after && after[n].groups - RESERVED == before[n].groups - RESERVED)
    && (forall n <- before :: n !in Names(plan.accounts) && n !in doomed ==> after[n] == before[n])
    && (forall n <- after :: n in before || n in Names(plan.accounts))
  }

  // ---- Why the order is safe ------------------------------------------------------------------------------

  /** After the first `i` ordered writes: promoted accounts are administrators, and administrators not
      yet demoted still are. */
  ghost predicate Progress(l: seq<Account>, i: nat, start: set<Name>, now: set<Name>)
    requires i <= |l|
  {
    && (forall k :: 0 <= k < i && WantsAdmin(l[k]) ==> l[k].name in now)
    && (forall n <- start :: (forall k :: 0 <= k < i && l[k].name == n ==> WantsAdmin(l[k])) ==> n in now)
  }

  /** At every prefix of the ordered writes an administrator remains. */
  lemma AdministratorRemains(plan: Plan, users: map<Name, User>, safe: set<Name>, i: nat, now: set<Name>)
    requires Normalized(plan, safe) && Admins(users, safe) != {} && Resulting(plan, users, safe) != {}
    requires var l := Ordered(plan.accounts, Admins(users, safe));
      i <= |l| && Progress(l, i, Admins(users, safe), now)
    ensures now != {}
  {
    var start := Admins(users, safe);
    var l := Ordered(plan.accounts, start);
    var w :| w in Resulting(plan, users, safe);
    if w !in Names(plan.accounts) {
      forall k | 0 <= k < i ensures l[k].name != w {
        OrderedHolds(plan.accounts, start, l[k]);
      }
      assert w in now;
    } else {
      var a :| a in plan.accounts && WantsAdmin(a) && a.name == w;
      OrderedHolds(plan.accounts, start, a);
      var p :| 0 <= p < |l| && l[p] == a;
      if p < i {
        assert w in now;
      } else {
        var e :| e in start;
        forall k | 0 <= k < i ensures WantsAdmin(l[k]) {
          if k < p { OrderedByRank(plan.accounts, start, k, p); }
        }
        assert e in now;
      }
    }
  }

  lemma WriteFrames(plan: Plan, safe: set<Name>, before: map<Name, User>, users: map<Name, User>, a: Account)
    requires Normalized(plan, safe) && a in plan.accounts && Frame(plan, {}, before, users)
    ensures Frame(plan, {}, before, users[a.name := Target(a, Lookup(users, a.name))])
  {
    assert a.name in Names(plan.accounts);
    assert Target(a, Lookup(users, a.name)).groups - RESERVED
        == if a.name in users then users[a.name].groups - RESERVED else {};
  }

  lemma ProgressStep(l: seq<Account>, i: nat, start: set<Name>, safe: set<Name>,
                     users: map<Name, User>, users': map<Name, User>)
    requires i < |l| && l[i].name in safe && Progress(l, i, start, Admins(users, safe))
    requires Applied(l[i], users') && forall n <- users :: n != l[i].name ==> n in users' && users'[n] == users[n]
    requires forall k :: 0 <= k < i && l[k].name == l[i].name ==> l[k] == l[i]
    ensures Progress(l, i + 1, start, Admins(users', safe))
  {
    var now, now' := Admins(users, safe), Admins(users', safe);
    assert ADMIN in users'[l[i].name].groups * RESERVED <==> ADMIN in users'[l[i].name].groups;
    forall n | n in start && (forall k :: 0 <= k < i + 1 && l[k].name == n ==> WantsAdmin(l[k])) ensures n in now' {
      if n == l[i].name {
        assert WantsAdmin(l[i]);
      } else {
        assert n in now;
      }
    }
  }

  /** The first `i` accounts in order have been written, starting from `before`. */
  ghost predicate Written(plan: Plan, safe: set<Name>, before: map<Name, User>, i: nat, users: map<Name, User>) {
    var l := Ordered(plan.accounts, Admins(before, safe));
    && i <= |l| && Frame(plan, {}, before, users)
    && Progress(l, i, Admins(before, safe), Admins(users, safe))
    && (forall k :: 0 <= k < i ==> Applied(l[k], users))
  }

  /** Whether or not write `i` takes effect, an administrator remains; if it does, one more is written. */
  lemma WrittenStep(plan: Plan, safe: set<Name>, before: map<Name, User>, i: nat,
                    users: map<Name, User>, users': map<Name, User>)
    requires Normalized(plan, safe) && Resulting(plan, before, safe) != {} && Written(plan, safe, before, i, users)
    requires i < |Ordered(plan.accounts, Admins(before, safe))|
    requires var a := Ordered(plan.accounts, Admins(before, safe))[i];
      users' == users || users' == users[a.name := Target(a, Lookup(users, a.name))]
    ensures Frame(plan, {}, before, users')
    ensures Admins(before, safe) != {} ==> Admins(users', safe) != {}
    ensures Applied(Ordered(plan.accounts, Admins(before, safe))[i], users') ==> Written(plan, safe, before, i + 1, users')
  {
    var start := Admins(before, safe);
    var l := Ordered(plan.accounts, start);
    var a := l[i];
    OrderedHolds(plan.accounts, start, a);
    WriteFrames(plan, safe, before, users, a);
    TargetApplied(a, users);
    if start != {} { AdministratorRemains(plan, before, safe, i, Admins(users, safe)); }
    if Applied(a, users') {
      WrittenOne(plan, safe, before, i, users, users');
      if start != {} { AdministratorRemains(plan, before, safe, i + 1, Admins(users', safe)); }
    }
  }

  lemma TargetApplied(a: Account, users: map<Name, User>)
    requires a.groups <= RESERVED
    ensures Applied(a, users[a.name := Target(a, Lookup(users, a.name))])
  {
  }

  lemma WrittenOne(plan: Plan, safe: set<Name>, before: map<Name, User>, i: nat,
                   users: map<Name, User>, users': map<Name, User>)
    requires Normalized(plan, safe) && Written(plan, safe, before, i, users) && Frame(plan, {}, before, users')
    requires i < |Ordered(plan.accounts, Admins(before, safe))|
    requires var a := Ordered(plan.accounts, Admins(before, safe))[i];
      Applied(a, users') && forall n <- users :: n != a.name ==> n in users' && users'[n] == users[n]
    ensures Written(plan, safe, before, i + 1, users')
  {
    var start := Admins(before, safe);
    var l := Ordered(plan.accounts, start);
    OrderedHolds(plan.accounts, start, l[i]);
    UniqueAccount(plan, safe, l[i]);
    forall k | 0 <= k < i && l[k].name == l[i].name ensures l[k] == l[i] {
      OrderedHolds(plan.accounts, start, l[k]);
    }
    ProgressStep(l, i, start, safe, users, users');
  }

  lemma WrittenEnds(plan: Plan, safe: set<Name>, before: map<Name, User>, users: map<Name, User>)
    requires Normalized(plan, safe) && Resulting(plan, before, safe) != {}
    requires Written(plan, safe, before, |Ordered(plan.accounts, Admins(before, safe))|, users)
    ensures Admins(before, safe) != {} ==> Admins(users, safe) != {}
    ensures forall a <- plan.accounts :: Applied(a, users)
  {
    var start := Admins(before, safe);
    var l := Ordered(plan.accounts, start);
    if start != {} { AdministratorRemains(plan, before, safe, |l|, Admins(users, safe)); }
    forall a | a in plan.accounts ensures Applied(a, users) {
      OrderedHolds(plan.accounts, start, a);
      var p :| 0 <= p < |l| && l[p] == a;
    }
  }

  /** When every account has been written, the administrators are the resulting ones and the doomed. */
  lemma ProgressEnds(plan: Plan, safe: set<Name>, before: map<Name, User>, users: map<Name, User>)
    requires Normalized(plan, safe) && Frame(plan, {}, before, users)
    requires forall a <- plan.accounts :: Applied(a, users)
    ensures Resulting(plan, before, safe) <= Admins(users, safe)
    ensures forall n <- Admins(users, safe) :: n in Resulting(plan, before, safe) || Doomed(plan, before, n)
  {
    forall n | n in Resulting(plan, before, safe) ensures n in Admins(users, safe) {
      if n in Names(plan.accounts) {
        var a :| a in plan.accounts && a.name == n && WantsAdmin(a);
        assert ADMIN in users[n].groups * RESERVED;
      }
    }
    forall n | n in Admins(users, safe) ensures n in Resulting(plan, before, safe) || Doomed(plan, before, n) {
      if n in Names(plan.accounts) {
        var a :| a in plan.accounts && a.name == n;
        assert ADMIN in users[n].groups * RESERVED;
        assert WantsAdmin(a);
      }
    }
  }

  function MarkComplete(v: Value, step: string, result: string): Value {
    v.(currentStep := None, steps := v.steps[step := Step(StepComplete, Some(result))])
  }

  lemma WriteAgrees(v: Value, plan: Plan, users: map<Name, User>, safe: set<Name>, a: Account)
    requires Normalized(plan, safe) && a in plan.accounts && Agrees(v, plan, users)
    ensures Agrees(v, plan, users[a.name := Target(a, Lookup(users, a.name))])
    ensures Applied(a, users[a.name := Target(a, Lookup(users, a.name))])
  {
    UniqueAccount(plan, safe, a);
  }

  lemma CompleteAgrees(v: Value, plan: Plan, users: map<Name, User>, safe: set<Name>, a: Account)
    requires Normalized(plan, safe) && a in plan.accounts && Agrees(v, plan, users) && Applied(a, users)
    ensures Agrees(MarkComplete(v, AccountStep(a.name), a.name), plan, users)
  {
    UniqueAccount(plan, safe, a);
    forall b | b in plan.accounts && AccountStep(b.name) == AccountStep(a.name) ensures Applied(b, users) {
      StepNamesDiffer(a.name, b.name);
    }
    forall n | n in users && RetireStep(n) == AccountStep(a.name) ensures false {
      StepNamesDiffer(a.name, n);
    }
    MarkAgrees(v, plan, users, AccountStep(a.name), a.name);
  }

  /** Completing a password step, or the group step, says nothing about any account. */
  lemma NeutralAgrees(v: Value, plan: Plan, users: map<Name, User>, n: Name, step: string, result: string)
    requires Agrees(v, plan, users) && step in {PasswordStep(n), GROUPS_STEP}
    ensures Agrees(MarkComplete(v, step, result), plan, users)
  {
    forall m ensures AccountStep(m) != step && RetireStep(m) != step {
      StepNamesDiffer(m, n);
    }
    MarkAgrees(v, plan, users, step, result);
  }

  lemma RetireAgrees(v: Value, plan: Plan, users: map<Name, User>, n: Name)
    requires Agrees(v, plan, users) && n in users && n !in Names(plan.accounts)
    ensures Agrees(v, plan, users[n := Retired(users[n])])
    ensures Agrees(MarkComplete(v, RetireStep(n), n), plan, users[n := Retired(users[n])])
  {
    var users' := users[n := Retired(users[n])];
    RetiredIsGone(users[n]);
    forall a | a in plan.accounts ensures a.name != n {
      assert a.name in Names(plan.accounts);
    }
    assert Agrees(v, plan, users');
    forall a | a in plan.accounts ensures AccountStep(a.name) != RetireStep(n) {
      StepNamesDiffer(a.name, n);
    }
    forall m | m in users' && RetireStep(m) == RetireStep(n) ensures m == n {
      StepNamesDiffer(m, n);
    }
    MarkAgrees(v, plan, users', RetireStep(n), n);
  }

  class Provider {
    const safe: set<Name>
    const journal: JournalFile
    var users: map<Name, User>

    /** The passwords set so far, by user. */
    ghost var passwords: seq<Name>

    /** The requests that came back with an error. */
    ghost var errors: nat

    constructor (safe: set<Name>, users: map<Name, User>)
      ensures this.safe == safe && this.users == users && fresh(journal) && journal.value == None && journal.history == []
    {
      this.safe, this.users, this.passwords, this.errors := safe, users, [], 0;
      this.journal := new JournalFile();
    }

    /** What a run needs of the records an earlier run of the same plan left behind. */
    ghost predicate Resumable(plan: Plan, fingerprint: string)
      reads this, journal
    {
      && journal.Coherent()
      && (journal.value.Some? && !Over(journal.value) && journal.value.value.fingerprint == fingerprint ==>
            Agrees(journal.value.value, plan, users))
    }

    /** A run in progress. */
    ghost predicate Working(j: OperationJournal, plan: Plan)
      reads this, journal, j
    {
      j.file == journal && j.Live() && Agrees(j.value, plan, users)
    }

    /** However the run stopped, the durable journal agrees with the users, and so does the one in memory. */
    ghost predicate Stopped(j: OperationJournal, plan: Plan)
      reads this, journal, j
    {
      && j.file == journal && j.Ahead() && journal.value.Some?
      && Agrees(j.value, plan, users) && Agrees(journal.value.value, plan, users)
    }

    /** One request to the provider; an error may hide that it took effect. */
    method Write(n: Name, u: User) returns (o: Outcome)
      modifies this`users, this`errors, journal`faults
      ensures users == old(users) || users == old(users)[n := u]
      ensures o == Done ==> users == old(users)[n := u]
      ensures journal.faults == old(journal.faults) + Toll(o)
      ensures errors == if o == Failed then old(errors) + 1 else old(errors)
    {
      var effective: bool := *;
      o := journal.Ask();
      errors := if o == Failed then errors + 1 else errors;
      if effective || o == Done {
        users := users[n := u];
      }
    }

    /** The failed step is in the journal, in memory and in the file. */
    ghost predicate FailureRecorded(j: OperationJournal, step: string)
      reads journal, j
    {
      && j.value.status in {Broken, ManualRecovery} && j.value.currentStep == Some(step) && journal.value == Some(j.value)
      && step in j.value.steps
      && j.value.steps[step].status == if j.value.status == ManualRecovery then StepManual else StepFailed
    }

    /** Record a failed step, escalating an uncertain mutation, then the failed operation. */
    method RecordFailure(j: OperationJournal, step: string, plan: Plan) returns (o: Outcome)
      requires Working(j, plan) && !IsComplete(j.value, step)
      modifies journal, j
      ensures Stopped(j, plan) && o != Done && journal.faults >= old(journal.faults)
      ensures journal.faults == old(journal.faults) ==> FailureRecorded(j, step)
    {
      var ambiguous: bool := *;
      o := j.FailStep(step, ambiguous);
      if o == Done && ambiguous {
        o := j.MarkManual(step);
      }
      o := if o == Crashed then Crashed else Failed;
    }

    /** Start the account's step, write the account, complete the step. */
    method WriteAccount(j: OperationJournal, a: Account, plan: Plan) returns (o: Outcome)
      requires Normalized(plan, safe) && a in plan.accounts && Working(j, plan)
      requires !IsComplete(j.value, AccountStep(a.name))
      modifies this`users, this`errors, journal, j
      ensures users == old(users) || users == old(users)[a.name := Target(a, Lookup(old(users), a.name))]
      ensures Stopped(j, plan)
      ensures o == Done ==> Working(j, plan) && Applied(a, users) && IsComplete(j.value, AccountStep(a.name))
      ensures errors > old(errors) && journal.faults == old(journal.faults) + 1 ==> FailureRecorded(j, AccountStep(a.name))
      ensures journal.faults >= old(journal.faults) && (journal.faults == old(journal.faults) <==> o == Done)
    {
      o := j.StartStep(AccountStep(a.name));
      assert Agrees(j.value, plan, users);
      if o != Done { return; }
      WriteAgrees(j.value, plan, users, safe, a);
      o := Write(a.name, Target(a, Lookup(users, a.name)));
      if o == Failed {
        o := RecordFailure(j, AccountStep(a.name), plan);
      }
      if o != Done { return; }
      CompleteAgrees(j.value, plan, users, safe, a);
      o := j.CompleteStep(AccountStep(a.name), a.name);
    }

    /** Write one account unless its step is complete, then set its password if it has one. */
    method ApplyAccount(j: OperationJournal, a: Account, plan: Plan) returns (o: Outcome)
      requires Normalized(plan, safe) && a in plan.accounts && Working(j, plan)
      modifies this, journal, j
      ensures users == old(users) || users == old(users)[a.name := Target(a, Lookup(old(users), a.name))]
      ensures Stopped(j, plan)
      ensures o == Done ==> Working(j, plan) && Applied(a, users)
      ensures passwords == old(passwords) || (a.password && passwords == old(passwords) + [a.name])
      ensures o == Done && a.password ==> passwords == old(passwords) + [a.name]
      ensures journal.faults >= old(journal.faults) && (journal.faults == old(journal.faults) <==> o == Done)
    {
      o := Done;
      j.LiveIsAhead();
      if !IsComplete(j.value, AccountStep(a.name)) {
        o := WriteAccount(j, a, plan);
      }
      if o == Done && a.password {
        o := SetPassword(j, a, plan);
      }
    }

    /** The request that sets a password. */
    method SendPassword(n: Name) returns (o: Outcome)
      modifies this`passwords, this`errors, journal`faults
      ensures passwords == old(passwords) || passwords == old(passwords) + [n]
      ensures o == Done ==> passwords == old(passwords) + [n]
      ensures journal.faults == old(journal.faults) + Toll(o)
      ensures errors == if o == Failed then old(errors) + 1 else old(errors)
    {
      var effective: bool := *;
      o := journal.Ask();
      errors := if o == Failed then errors + 1 else errors;
      if effective || o == Done {
        passwords := passwords + [n];
      }
    }

    /** Passwords are set again on every run; they change no membership. */
    method SetPassword(j: OperationJournal, a: Account, plan: Plan) returns (o: Outcome)
      requires Working(j, plan)
      modifies this`passwords, this`errors, journal, j
      ensures Stopped(j, plan)
      ensures passwords == old(passwords) || passwords == old(passwords) + [a.name]
      ensures o == Done ==> Working(j, plan) && passwords == old(passwords) + [a.name] && IsComplete(j.value, PasswordStep(a.name))
      ensures errors > old(errors) && journal.faults == old(journal.faults) + 1 ==> FailureRecorded(j, PasswordStep(a.name))
      ensures journal.faults >= old(journal.faults) && (journal.faults == old(journal.faults) <==> o == Done)
    {
      o := j.StartStep(PasswordStep(a.name));
      if o != Done { return; }
      o := SendPassword(a.name);
      if o == Failed {
        o := RecordFailure(j, PasswordStep(a.name), plan);
      }
      if o != Done { return; }
      NeutralAgrees(j.value, plan, users, a.name, PasswordStep(a.name), "changed");
      o := j.CompleteStep(PasswordStep(a.name), "changed");
    }

    /** Apply the next account in order. */
    method ApplyNext(j: OperationJournal, plan: Plan, l: seq<Account>, i: nat,
                     ghost before: map<Name, User>, ghost had: seq<Name>) returns (o: Outcome)
      requires Normalized(plan, safe) && Working(j, plan) && Resulting(plan, before, safe) != {}
      requires l == Ordered(plan.accounts, Admins(before, safe)) && i < |l|
      requires Written(plan, safe, before, i, users) && passwords == had + PasswordsOf(l, i)
      modifies this, journal, j
      ensures Stopped(j, plan) && Frame(plan, {}, before, users)
      ensures Admins(before, safe) != {} ==> Admins(users, safe) != {}
      ensures o == Done ==> Working(j, plan)
      ensures o == Done ==> Written(plan, safe, before, i + 1, users) && passwords == had + PasswordsOf(l, i + 1)
      ensures journal.faults >= old(journal.faults) && (journal.faults == old(journal.faults) <==> o == Done)
    {
      OrderedHolds(plan.accounts, Admins(before, safe), l[i]);
      o := ApplyAccount(j, l[i], plan);
      WrittenStep(plan, safe, before, i, old(users), users);
      if o != Done { return; }
      PasswordsStep(l, i, had, old(passwords), passwords);
    }

    /** Apply the accounts one by one. */
    method ApplyInOrder(j: OperationJournal, plan: Plan, l: seq<Account>, ghost before: map<Name, User>) returns (o: Outcome)
      requires Normalized(plan, safe) && Working(j, plan) && Resulting(plan, before, safe) != {}
      requires l == Ordered(plan.accounts, Admins(before, safe)) && Written(plan, safe, before, 0, users)
      modifies this, journal, j
      ensures o != Done ==> Stopped(j, plan) && Frame(plan, {}, before, users)
      ensures o != Done && Admins(before, safe) != {} ==> Admins(users, safe) != {}
      ensures o == Done ==> Working(j, plan) && Written(plan, safe, before, |l|, users)
      ensures o == Done ==> passwords == old(passwords) + PasswordsOf(l, |l|)
      ensures journal.faults >= old(journal.faults) && (journal.faults == old(journal.faults) <==> o == Done)
    {
      o := Done;
      assert passwords + [] == passwords;
      var i := 0;
      while i < |l|
        invariant i <= |l| && o == Done && Working(j, plan) && Written(plan, safe, before, i, users)
        invariant passwords == old(passwords) + PasswordsOf(l, i)
        invariant journal.faults == old(journal.faults)
      {
        o := ApplyNext(j, plan, l, i, before, old(passwords));
        if o != Done { return; }
        i := i + 1;
      }
    }

    /** Write the accounts in order of rank.  Wherever this stops, an administrator remains. */
    method ApplyAccounts(j: OperationJournal, plan: Plan) returns (o: Outcome)
      requires Normalized(plan, safe) && Working(j, plan) && Resulting(plan, users, safe) != {}
      modifies this, journal, j
      ensures Stopped(j, plan) && Frame(plan, {}, old(users), users)
      ensures Admins(old(users), safe) != {} ==> Admins(users, safe) != {}
      ensures o == Done ==> Working(j, plan) && forall a <- plan.accounts :: Applied(a, users)
      ensures o == Done ==> Renewed(plan, old(passwords), passwords)
      ensures journal.faults >= old(journal.faults) && (journal.faults == old(journal.faults) <==> o == Done)
    {
      ghost var before := users;
      o := ApplyInOrder(j, plan, Ordered(plan.accounts, Admins(users, safe)), before);
      if o != Done { return; }
      j.LiveIsAhead();
      WrittenEnds(plan, safe, before, users);
      RenewedEnds(plan, Admins(before, safe), old(passwords), passwords);
    }

    /** Deactivate one user the plan no longer mentions, unless its step is complete. */
    method RetireUser(j: OperationJournal, n: Name, plan: Plan) returns (o: Outcome)
      requires Working(j, plan) && n in users && n !in Names(plan.accounts)
      modifies this`users, this`errors, journal, j
      ensures users == old(users) || users == old(users)[n := Retired(old(users)[n])]
      ensures Stopped(j, plan)
      ensures o == Done ==> Working(j, plan) && Gone(users[n])
      ensures journal.faults >= old(journal.faults) && (journal.faults == old(journal.faults) <==> o == Done)
    {
      o := Done;
      j.LiveIsAhead();
      if !IsComplete(j.value, RetireStep(n)) {
        o := WriteRetirement(j, n, plan);
      }
    }

    /** Start the step, deactivate the user, complete the step. */
    method WriteRetirement(j: OperationJournal, n: Name, plan: Plan) returns (o: Outcome)
      requires Working(j, plan) && n in users && n !in Names(plan.accounts) && !IsComplete(j.value, RetireStep(n))
      modifies this`users, this`errors, journal, j
      ensures users == old(users) || users == old(users)[n := Retired(old(users)[n])]
      ensures Stopped(j, plan)
      ensures o == Done ==> Working(j, plan) && Gone(users[n]) && IsComplete(j.value, RetireStep(n))
      ensures errors > old(errors) && journal.faults == old(journal.faults) + 1 ==> FailureRecorded(j, RetireStep(n))
      ensures journal.faults >= old(journal.faults) && (journal.faults == old(journal.faults) <==> o == Done)
    {
      o := j.StartStep(RetireStep(n));
      assert Agrees(j.value, plan, users);
      if o != Done { return; }
      RetireAgrees(j.value, plan, users, n);
      RetiredIsGone(users[n]);
      o := Write(n, Retired(users[n]));
      if o == Failed {
        o := RecordFailure(j, RetireStep(n), plan);
      }
      if o != Done { return; }
      o := j.CompleteStep(RetireStep(n), n);
    }

    method RetireNext(j: OperationJournal, plan: Plan, n: Name, ghost before: map<Name, User>, ghost todo: set<Name>)
        returns (o: Outcome)
      requires Working(j, plan) && Retiring(plan, safe, before, users, todo)
      requires n in todo && n in DoomedUsers(plan, before)
      modifies this`users, this`errors, journal, j
      ensures Stopped(j, plan) && Frame(plan, DoomedUsers(plan, before), before, users)
      ensures Resulting(plan, before, safe) <= Admins(users, safe)
      ensures o == Done ==> Working(j, plan) && Retiring(plan, safe, before, users, todo - {n})
      ensures journal.faults >= old(journal.faults) && (journal.faults == old(journal.faults) <==> o == Done)
    {
      o := RetireUser(j, n, plan);
      RetiringStep(plan, safe, before, old(users), users, todo, n);
    }

    method RetireAll(j: OperationJournal, plan: Plan, doomed: set<Name>, ghost before: map<Name, User>) returns (o: Outcome)
      requires Working(j, plan) && Retiring(plan, safe, before, users, doomed) && doomed == DoomedUsers(plan, before)
      modifies this`users, this`errors, journal, j
      ensures o != Done ==>
        && Stopped(j, plan) && Frame(plan, DoomedUsers(plan, before), before, users)
        && Resulting(plan, before, safe) <= Admins(users, safe)
      ensures o == Done ==> Working(j, plan) && Retiring(plan, safe, before, users, {})
      ensures journal.faults >= old(journal.faults) && (journal.faults == old(journal.faults) <==> o == Done)
    {
      o := Done;
      var todo := doomed;
      while todo != {}
        invariant o == Done && todo <= doomed && Working(j, plan) && journal.faults == old(journal.faults)
        invariant Retiring(plan, safe, before, users, todo)
        decreases |todo|
      {
        var n :| n in todo;
        o := RetireNext(j, plan, n, before, todo);
        if o != Done { return; }
        todo := todo - {n};
      }
    }

    /** Deactivate every user the plan no longer mentions. */
    method RetireUsers(j: OperationJournal, plan: Plan, ghost before: map<Name, User>) returns (o: Outcome)
      requires Normalized(plan, safe) && Working(j, plan) && Frame(plan, {}, before, users)
      requires forall a <- plan.accounts :: Applied(a, users)
      modifies this`users, this`errors, journal, j
      ensures Stopped(j, plan) && Frame(plan, DoomedUsers(plan, before), before, users)
      ensures Resulting(plan, before, safe) <= Admins(users, safe)
      ensures o == Done ==> Working(j, plan) && Admins(users, safe) == Resulting(plan, before, safe)
      ensures o == Done ==> AsPlanned(plan, before, users)
      ensures journal.faults >= old(journal.faults) && (journal.faults == old(journal.faults) <==> o == Done)
    {
      ProgressEnds(plan, safe, before, users);
      SameDoom(plan, before, users);
      o := RetireAll(j, plan, DoomedUsers(plan, users), before);
      if o != Done { return; }
      j.LiveIsAhead();
      EndsAsPlanned(plan, before, users);
    }

    /** Make sure the administrator group has a member: an empty one gets the bootstrap account. */
    method EnsureGroups() returns (o: Outcome)
      modifies this`users, this`errors, journal`faults
      ensures HasMembers(old(users)) ==> users == old(users)
      ensures users == old(users)
        || (&& BOOTSTRAP in old(users) && old(users)[BOOTSTRAP].active
            && users == old(users)[BOOTSTRAP :=
                 old(users)[BOOTSTRAP].(groups := old(users)[BOOTSTRAP].groups + {ADMIN})])
      ensures journal.faults >= old(journal.faults)
      ensures journal.faults == old(journal.faults) ==>
        (o == Done <==> (exists n <- old(users) :: "nas_admin" in old(users)[n].groups)
                        || ("akadmin" in old(users) && old(users)["akadmin"].active))
      ensures errors == if o == Failed then old(errors) + 1 else old(errors)
      ensures o == Done ==> journal.faults == old(journal.faults)
      ensures journal.faults <= old(journal.faults) + 1
      ensures o == Done && !HasMembers(old(users)) ==>
        "akadmin" in users && users["akadmin"].active && "nas_admin" in users["akadmin"].groups
    {
      if HasMembers(users) {
        o := journal.Ask();
        errors := if o == Failed then errors + 1 else errors;
      } else if BOOTSTRAP in users && users[BOOTSTRAP].active {
        o := Write(BOOTSTRAP, users[BOOTSTRAP].(groups := users[BOOTSTRAP].groups + {ADMIN}));
      } else {
        o := Failed;
        errors := errors + 1;
      }
    }

    /** The `reserved-groups` step, skipped when complete. */
    method GroupsStep(j: OperationJournal, plan: Plan) returns (o: Outcome)
      requires Normalized(plan, safe) && Working(j, plan)
      modifies this`users, this`errors, journal, j
      ensures Stopped(j, plan)
      ensures HasMembers(old(users)) ==> users == old(users)
      ensures o == Done ==> Working(j, plan) && IsComplete(j.value, GROUPS_STEP)
      ensures o == Done && !IsComplete(old(j.value), GROUPS_STEP) ==> j.value.status == Running
      ensures IsComplete(old(j.value), GROUPS_STEP) ==> o == Done && users == old(users) && j.value == old(j.value)
      ensures errors > old(errors) && journal.faults <= old(journal.faults) + (if HasMembers(old(users)) then 1 else 0) ==>
        FailureRecorded(j, GROUPS_STEP)
      ensures o == Done ==> journal.faults == old(journal.faults)
      ensures o == Done && !HasMembers(old(users)) && !IsComplete(old(j.value), GROUPS_STEP) ==>
        "akadmin" in users && users["akadmin"].active && "nas_admin" in users["akadmin"].groups
      ensures journal.faults >= old(journal.faults)
      ensures journal.faults == old(journal.faults) && HasMembers(old(users)) ==> o == Done
    {
      o := Done;
      j.LiveIsAhead();
      if !IsComplete(j.value, GROUPS_STEP) {
        o := j.StartStep(GROUPS_STEP);
        if o != Done { return; }
        o := EnsureGroups();
        assert Agrees(j.value, plan, users);
        if o == Failed {
          o := RecordFailure(j, GROUPS_STEP, plan);
        }
        if o != Done { return; }
        NeutralAgrees(j.value, plan, users, "", GROUPS_STEP, "ensured");
        o := j.CompleteStep(GROUPS_STEP, "ensured");
      }
    }

    /** `apply_account_plan`.  Only an administrator group without any member makes it touch the
        bootstrap account. */
    method Apply(plan: Plan, fingerprint: string, confirmPasswords: bool) returns (o: Outcome)
      requires Normalized(plan, safe) && Resumable(plan, fingerprint)
      modifies this, journal
      ensures Resumable(plan, fingerprint)
      ensures HasMembers(old(users)) ==> Frame(plan, DoomedUsers(plan, old(users)), old(users), users)
      ensures Admins(old(users), safe) != {} ==> Admins(users, safe) != {}
      ensures o == Done ==> exists n <- users :: n in safe && users[n].active && "nas_admin" in users[n].groups
      ensures o == Done && !HasMembers(old(users)) && (old(journal.value).None? || Over(old(journal.value))) ==>
        "akadmin" in users && users["akadmin"].active && "nas_admin" in users["akadmin"].groups
      ensures o == Done && HasMembers(old(users)) ==> AsPlanned(plan, old(users), users)
      ensures o == Done ==> Renewed(plan, old(passwords), passwords)
      ensures o == Done ==> journal.value.Some? && journal.value.value.status == Complete
      ensures HasMembers(old(users)) && !LeavesAdministrator(plan, old(users), safe) ==> o != Done && users == old(users)
      ensures !PasswordsConfirmed(plan, old(journal.value), confirmPasswords) ==>
        o == Failed && users == old(users) && passwords == old(passwords) && journal.value == old(journal.value)
      ensures journal.faults >= old(journal.faults) && (o == Done ==> journal.faults == old(journal.faults))
      ensures journal.faults == old(journal.faults) && HasMembers(old(users)) ==>
        (o == Done <==> && PasswordsConfirmed(plan, old(journal.value), confirmPasswords)
                        && Openable(old(journal.value), ACCOUNT_WORKFLOW, fingerprint)
                        && LeavesAdministrator(plan, old(users), safe))
    {
      LeavesAdministratorIff(plan, users, safe);
      var over := journal.value.None? || Over(journal.value);
      if !over && !confirmPasswords && exists a <- plan.accounts :: a.password { return Failed; }
      o := ApplyConfirmed(plan, fingerprint);
    }

    /** The run once the passwords need no confirmation. */
    method ApplyConfirmed(plan: Plan, fingerprint: string) returns (o: Outcome)
      requires Normalized(plan, safe) && Resumable(plan, fingerprint)
      modifies this, journal
      ensures Resumable(plan, fingerprint)
      ensures HasMembers(old(users)) ==> Frame(plan, DoomedUsers(plan, old(users)), old(users), users)
      ensures Admins(old(users), safe) != {} ==> Admins(users, safe) != {}
      ensures o == Done ==> exists n <- users :: n in safe && users[n].active && "nas_admin" in users[n].groups
      ensures o == Done && !HasMembers(old(users)) && (old(journal.value).None? || Over(old(journal.value))) ==>
        "akadmin" in users && users["akadmin"].active && "nas_admin" in users["akadmin"].groups
      ensures o == Done && HasMembers(old(users)) ==> Admins(users, safe) == Resulting(plan, old(users), safe)
      ensures o == Done && HasMembers(old(users)) ==> AsPlanned(plan, old(users), users)
      ensures o == Done ==> Renewed(plan, old(passwords), passwords)
      ensures o == Done ==> journal.value.Some? && journal.value.value.status == Complete
      ensures HasMembers(old(users)) && Resulting(plan, old(users), safe) == {} ==> o != Done && users == old(users)
      ensures journal.faults >= old(journal.faults) && (o == Done ==> journal.faults == old(journal.faults))
      ensures journal.faults == old(journal.faults) && HasMembers(old(users)) ==>
        (o == Done <==> Openable(old(journal.value), ACCOUNT_WORKFLOW, fingerprint) && Resulting(plan, old(users), safe) != {})
      ensures (&& journal.faults == old(journal.faults) && HasMembers(old(users)) && o != Done
               && Openable(old(journal.value), ACCOUNT_WORKFLOW, fingerprint)) ==>
        journal.value.Some? && journal.value.value.status in {Broken, ManualRecovery}
    {
      AdminsAreMembers(users, safe);
      var j;
      o, j := OperationJournal.Open(journal, ACCOUNT_WORKFLOW, fingerprint);
      if o != Done { return; }
      o := Guarded(j, plan);
    }

    /** The attempt with its handler. */
    method Guarded(j: OperationJournal, plan: Plan) returns (o: Outcome)
      requires Normalized(plan, safe) && Working(j, plan)
      modifies this, journal, j
      ensures Stopped(j, plan)
      ensures HasMembers(old(users)) ==> Frame(plan, DoomedUsers(plan, old(users)), old(users), users)
      ensures Admins(old(users), safe) != {} ==> Admins(users, safe) != {}
      ensures o == Done ==> exists n <- users :: n in safe && users[n].active && "nas_admin" in users[n].groups
      ensures o == Done && !HasMembers(old(users)) && !IsComplete(old(j.value), GROUPS_STEP) ==>
        "akadmin" in users && users["akadmin"].active && "nas_admin" in users["akadmin"].groups
      ensures o == Done && HasMembers(old(users)) ==> Admins(users, safe) == Resulting(plan, old(users), safe)
      ensures o == Done && HasMembers(old(users)) ==> AsPlanned(plan, old(users), users)
      ensures o == Done ==> Renewed(plan, old(passwords), passwords)
      ensures o == Done ==> journal.value.Some? && journal.value.value.status == Complete
      ensures HasMembers(old(users)) && Resulting(plan, old(users), safe) == {} ==> o != Done && users == old(users)
      ensures journal.faults >= old(journal.faults) && (o == Done ==> journal.faults == old(journal.faults))
      ensures (journal.faults == old(journal.faults) && HasMembers(old(users))) ==>
        (o == Done <==> Resulting(plan, old(users), safe) != {})
      ensures journal.faults == old(journal.faults) && HasMembers(old(users)) && o != Done ==>
        journal.value.Some? && journal.value.value.status in {Broken, ManualRecovery}
    {
      o := Attempt(j, plan);
      if o == Failed {
        o := Abort(j, plan);
      }
    }

    /** The steps under the handler: groups, prediction, accounts, deactivations, completion. */
    method Attempt(j: OperationJournal, plan: Plan) returns (o: Outcome)
      requires Normalized(plan, safe) && Working(j, plan)
      modifies this, journal, j
      ensures Stopped(j, plan)
      ensures HasMembers(old(users)) ==> Frame(plan, DoomedUsers(plan, old(users)), old(users), users)
      ensures Admins(old(users), safe) != {} ==> Admins(users, safe) != {}
      ensures o == Done ==> exists n <- users :: n in safe && users[n].active && "nas_admin" in users[n].groups
      ensures o == Done && !HasMembers(old(users)) && !IsComplete(old(j.value), GROUPS_STEP) ==>
        "akadmin" in users && users["akadmin"].active && "nas_admin" in users["akadmin"].groups
      ensures o == Done && HasMembers(old(users)) ==> Admins(users, safe) == Resulting(plan, old(users), safe)
      ensures o == Done && HasMembers(old(users)) ==> AsPlanned(plan, old(users), users)
      ensures o == Done ==> Renewed(plan, old(passwords), passwords)
      ensures o == Done ==> journal.value.Some? && journal.value.value.status == Complete
      ensures HasMembers(old(users)) && Resulting(plan, old(users), safe) == {} ==> o != Done && users == old(users)
      ensures journal.faults >= old(journal.faults) && (o == Done ==> journal.faults == old(journal.faults))
      ensures (journal.faults == old(journal.faults) && HasMembers(old(users))) ==>
        (o == Done <==> Resulting(plan, old(users), safe) != {})
      ensures journal.faults == old(journal.faults) && HasMembers(old(users)) && o != Done ==>
        o == Failed && j.value.status != ManualRecovery
    {
      AdminsAreMembers(users, safe);
      o := GroupsStep(j, plan);
      if o != Done { return; }
      j.LiveIsAhead();
      o := journal.Ask(); // list groups and users
      if o != Done { return; }
      if Resulting(plan, users, safe) == {} { return Failed; }
      o := CarryOut(j, plan);
    }

    /** The writes, once the prediction leaves an administrator. */
    method CarryOut(j: OperationJournal, plan: Plan) returns (o: Outcome)
      requires Normalized(plan, safe) && Working(j, plan) && Resulting(plan, users, safe) != {}
      modifies this, journal, j
      ensures Stopped(j, plan) && Frame(plan, DoomedUsers(plan, old(users)), old(users), users)
      ensures Admins(old(users), safe) != {} ==> Admins(users, safe) != {}
      ensures o == Done ==> Admins(users, safe) == Resulting(plan, old(users), safe)
      ensures o == Done ==> AsPlanned(plan, old(users), users) && Renewed(plan, old(passwords), passwords)
      ensures o == Done ==> journal.value.Some? && journal.value.value.status == Complete
      ensures journal.faults >= old(journal.faults) && (journal.faults == old(journal.faults) <==> o == Done)
    {
      ghost var before := users;
      o := ApplyAccounts(j, plan);
      if o != Done { return; }
      o := RetireUsers(j, plan, before);
      if o != Done { return; }
      o := j.CompleteAll();
    }

    /** The handler: unless recovery is already demanded, record the failure with whatever a save that
        raised left in memory. */
    method Abort(j: OperationJournal, plan: Plan) returns (o: Outcome)
      requires Stopped(j, plan)
      modifies journal, j
      ensures Stopped(j, plan) && o != Done && journal.faults >= old(journal.faults)
      ensures journal.faults == old(journal.faults) ==> j.value.status in {Broken, ManualRecovery}
      ensures journal.faults == old(journal.faults) && old(j.value.status) != ManualRecovery ==> journal.value == Some(j.value)
    {
      o := Failed;
      if j.value.status != ManualRecovery {
        var ambiguous: bool := *;
        o := j.Fail(ambiguous);
        o := if o == Crashed then Crashed else Failed;
      }
    }

    /** One plan applied any number of times, each run stopping anywhere: no administrator is lost. */
    method ApplyRepeatedly(plan: Plan, fingerprint: string, runs: nat)
      requires Normalized(plan, safe) && Resumable(plan, fingerprint)
      requires exists n <- users :: n in safe && users[n].active && "nas_admin" in users[n].groups
      modifies this, journal
      ensures Resumable(plan, fingerprint)
      ensures exists n <- users :: n in safe && users[n].active && "nas_admin" in users[n].groups
      ensures "akadmin" in old(users) ==> "akadmin" in users && users["akadmin"] == old(users)["akadmin"]
      ensures forall n <- old(users) :: n in users && users[n].groups - RESERVED == old(users)[n].groups - RESERVED
    {
      assert Admins(users, safe) != {} by {
        var n :| n in users && n in safe && users[n].active && "nas_admin" in users[n].groups;
        assert n in Admins(users, safe);
      }
      var k := 0;
      while k < runs
        invariant Resumable(plan, fingerprint) && Admins(users, safe) != {}
        invariant BOOTSTRAP in old(users) ==> BOOTSTRAP in users && users[BOOTSTRAP] == old(users)[BOOTSTRAP]
        invariant forall n <- old(users) :: n in users && users[n].groups - RESERVED == old(users)[n].groups - RESERVED
      {
        AdminsAreMembers(users, safe);
        assert forall a <- plan.accounts :: a.name != BOOTSTRAP;
        var confirmed: bool := *;
        var o := Apply(plan, fingerprint, confirmed);
        k := k + 1;
      }
    }
  }

  /** A resumed plan that sets passwords must be confirmed again. */
  ghost predicate PasswordsConfirmed(plan: Plan, journal: Option<Value>, confirmPasswords: bool) {
    || confirmPasswords || journal.None? || journal.value.status in {Complete, Cancelled}
    || forall a <- plan.accounts :: !a.password
  }

  /** The plan keeps or makes some administrator. */
  ghost predicate LeavesAdministrator(plan: Plan, users: map<Name, User>, safe: set<Name>) {
    || (exists a <- plan.accounts :: a.active && "nas_admin" in a.groups)
    || (exists n <- users ::
          && n in safe && users[n].active && "nas_admin" in users[n].groups
          && (forall a <- plan.accounts :: a.name != n)
          && !(plan.deactivateMissing && n != "akadmin" && users[n].managed))
  }

  lemma LeavesAdministratorIff(plan: Plan, users: map<Name, User>, safe: set<Name>)
    ensures Resulting(plan, users, safe) != {} <==> LeavesAdministrator(plan, users, safe)
  {
    if n :| n in Resulting(plan, users, safe) {
      if a :| a in plan.accounts && WantsAdmin(a) && a.name == n {
        assert a.active && "nas_admin" in a.groups;
      } else {
        assert n in Admins(users, safe);
        assert forall a <- plan.accounts :: a.name in Names(plan.accounts);
      }
    }
    if a :| a in plan.accounts && a.active && "nas_admin" in a.groups {
      assert WantsAdmin(a) && a.name in Resulting(plan, users, safe);
    } else if n :|
        && n in users && n in safe && users[n].active && "nas_admin" in users[n].groups
        && (forall a <- plan.accounts :: a.name != n)
        && !(plan.deactivateMissing && n != "akadmin" && users[n].managed)
    {
      assert n in Admins(users, safe) && n in Resulting(plan, users, safe);
    }
  }

  predicate HasMembers(users: map<Name, User>) { exists n <- users :: ADMIN in users[n].groups }

  lemma AdminsAreMembers(users: map<Name, User>, safe: set<Name>)
    ensures Admins(users, safe) != {} ==> HasMembers(users)
  {
    if n :| n in Admins(users, safe) {
      assert n in users && ADMIN in users[n].groups;
    }
  }

  function DoomedUsers(plan: Plan, users: map<Name, User>): set<Name> { set n | n in users && Doomed(plan, users, n) }

  /** What the plan asks of every user, spelled out. */
  ghost predicate AsPlanned(plan: Plan, before: map<Name, User>, users: map<Name, User>) {
    && (forall a <- plan.accounts ::
          && a.name in users && users[a.name].active == a.active && users[a.name].managed
          && users[a.name].groups * {"nas_admin", "nas_users", "nas_guests", "nas_disabled"} == a.groups)
    && (forall n <- before :: (forall a <- plan.accounts :: a.name != n) ==>
          && n in users
          && if plan.deactivateMissing && n != "akadmin" && before[n].managed then
               && !users[n].active && users[n].managed
               && users[n].groups * {"nas_admin", "nas_users", "nas_guests", "nas_disabled"} == {"nas_disabled"}
             else users[n] == before[n])
    && (forall n <- before :: n in users && forall g <- before[n].groups ::
          g !in {"nas_admin", "nas_users", "nas_guests", "nas_disabled"} ==> g in users[n].groups)
  }

  lemma EndsAsPlanned(plan: Plan, before: map<Name, User>, users: map<Name, User>)
    requires Frame(plan, DoomedUsers(plan, before), before, users) && forall a <- plan.accounts :: Applied(a, users)
    requires forall n <- DoomedUsers(plan, before) :: n in users && users[n].managed && Gone(users[n])
    ensures AsPlanned(plan, before, users)
  {
    assert RESERVED == {"nas_admin", "nas_users", "nas_guests", "nas_disabled"};
    assert forall a <- plan.accounts ::
        && a.name in users && users[a.name].active == a.active && users[a.name].managed
        && users[a.name].groups * {"nas_admin", "nas_users", "nas_guests", "nas_disabled"} == a.groups;
    forall n <- before | (forall a <- plan.accounts :: a.name != n)
      ensures
        && n in users
        && if plan.deactivateMissing && n != "akadmin" && before[n].managed then
             && !users[n].active && users[n].managed && users[n].groups * RESERVED == {"nas_disabled"}
           else users[n] == before[n]
    {
      assert n !in Names(plan.accounts);
      assert n in DoomedUsers(plan, before) <==> Doomed(plan, before, n);
    }
    forall n <- before ensures n in users && forall g <- before[n].groups :: g !in RESERVED ==> g in users[n].groups {
      assert before[n].groups - RESERVED == users[n].groups - RESERVED;
      assert forall g <- before[n].groups :: g !in RESERVED ==> g in before[n].groups - RESERVED;
    }
  }

  /** Every planned password was set, and no other. */
  ghost predicate Renewed(plan: Plan, was: seq<Name>, now: seq<Name>) {
    && was <= now
    && (forall a <- plan.accounts :: a.password ==> a.name in now[|was|..])
    && (forall n <- now[|was|..] :: exists a <- plan.accounts :: a.name == n && a.password)
  }

  /** The passwords the first `i` accounts ask for, in order. */
  function PasswordsOf(l: seq<Account>, i: nat): seq<Name>
    requires i <= |l|
  {
    if i == 0 then [] else PasswordsOf(l, i - 1) + (if l[i - 1].password then [l[i - 1].name] else [])
  }

  lemma PasswordsStep(l: seq<Account>, i: nat, had: seq<Name>, was: seq<Name>, now: seq<Name>)
    requires i < |l| && was == had + PasswordsOf(l, i)
    requires now == was || (l[i].password && now == was + [l[i].name])
    requires l[i].password ==> now == was + [l[i].name]
    ensures now == had + PasswordsOf(l, i + 1)
  {
  }

  lemma {:induction false} PasswordsOfMeans(l: seq<Account>, i: nat, n: Name)
    requires i <= |l|
    ensures n in PasswordsOf(l, i) <==> exists k :: 0 <= k < i && l[k].name == n && l[k].password
  {
    if i > 0 {
      PasswordsOfMeans(l, i - 1, n);
      assert n in PasswordsOf(l, i) <==> n in PasswordsOf(l, i - 1) || (l[i - 1].password && l[i - 1].name == n);
    }
  }

  lemma RenewedEnds(plan: Plan, current: set<Name>, was: seq<Name>, now: seq<Name>)
    requires var l := Ordered(plan.accounts, current); now == was + PasswordsOf(l, |l|)
    ensures Renewed(plan, was, now)
  {
    var l := Ordered(plan.accounts, current);
    assert now[|was|..] == PasswordsOf(l, |l|);
    forall n ensures n in PasswordsOf(l, |l|) <==> exists a <- plan.accounts :: a.name == n && a.password {
      PasswordsOfMeans(l, |l|, n);
      forall a ensures a in l <==> a in plan.accounts { OrderedHolds(plan.accounts, current, a); }
    }
  }

  lemma SameDoom(plan: Plan, before: map<Name, User>, users: map<Name, User>)
    requires Frame(plan, {}, before, users)
    ensures DoomedUsers(plan, users) == DoomedUsers(plan, before)
  {
  }

  /** Between deactivations: the resulting administrators stand, and any other is still to be retired. */
  ghost predicate Retiring(plan: Plan, safe: set<Name>, before: map<Name, User>, users: map<Name, User>, todo: set<Name>) {
    && Frame(plan, DoomedUsers(plan, before), before, users)
    && Resulting(plan, before, safe) <= Admins(users, safe)
    && (forall n <- Admins(users, safe) :: n in Resulting(plan, before, safe) || n in todo)
    && (forall n <- DoomedUsers(plan, before) :: n in users && users[n].managed && (n in todo || Gone(users[n])))
    && (forall a <- plan.accounts :: Applied(a, users))
  }

  lemma RetiringStep(plan: Plan, safe: set<Name>, before: map<Name, User>,
                     users: map<Name, User>, users': map<Name, User>, todo: set<Name>, n: Name)
    requires Retiring(plan, safe, before, users, todo) && n in todo && n in DoomedUsers(plan, before) && n in users
    requires users' == users || users' == users[n := Retired(users[n])]
    ensures Frame(plan, DoomedUsers(plan, before), before, users')
    ensures Resulting(plan, before, safe) <= Admins(users', safe)
    ensures Gone(users'[n]) ==> Retiring(plan, safe, before, users', todo - {n})
  {
    assert n !in Resulting(plan, before, safe) by {
      assert forall a <- plan.accounts :: a.name in Names(plan.accounts);
    }
    assert Retired(users[n]).groups - RESERVED == users[n].groups - RESERVED;
    assert forall a <- plan.accounts :: a.name in Names(plan.accounts);
  }

  /** A retired user is gone, keeps its other roles and its mark. */
  lemma RetiredIsGone(u: User)
    ensures Gone(Retired(u)) && Retired(u).groups - RESERVED == u.groups - RESERVED && Retired(u).managed == u.managed
  {
    assert Retired(u).groups * RESERVED == {DISABLED};
  }

  lemma UniqueAccount(plan: Plan, safe: set<Name>, a: Account)
    requires Normalized(plan, safe) && a in plan.accounts
    ensures forall b <- plan.accounts :: b.name == a.name ==> b == a
    ensures a.name in Names(plan.accounts)
  {
    forall b | b in plan.accounts && b.name == a.name ensures b == a {
      var i :| 0 <= i < |plan.accounts| && plan.accounts[i] == a;
      var k :| 0 <= k < |plan.accounts| && plan.accounts[k] == b;
      assert i == k;
    }
  }
}
