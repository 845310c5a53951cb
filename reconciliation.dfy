/**
 * Turning the people submitted with a thesis into rows of the database:
 * external people are looked up by email or created as external users,
 * supervisors are de-duplicated by user and share the thesis evenly
 * (src/server/routes/thesis.integration-test.js, the POST and PUT cases
 * with duplicate and external supervisors).
 */
module Reconciliation {
  import opened Wrappers
  import opened Seqs

  /** Database keys of users, handed out in increasing order. */
  type UserId = nat

  datatype UserRow = UserRow(id: UserId, firstName: string, lastName: string, email: string, isExternal: bool)

  /** The users table, in insertion order, and the key the next new user receives. */
  datatype Directory = Directory(users: seq<UserRow>, nextId: nat)

  /** Every user key is below the next key and no key is used twice. */
  predicate WellKeyed(d: Directory) {
    && (forall i :: 0 <= i < |d.users| ==> d.users[i].id < d.nextId)
    && (forall i, j :: 0 <= i < j < |d.users| ==> d.users[i].id != d.users[j].id)
  }

  /** A submitted person: an existing user by key, or the details of an external person. */
  datatype PersonRef = Internal(userId: UserId) | External(firstName: string, lastName: string, email: string)

  /** A submitted supervision; its percentage is not what gets stored. */
  datatype SubmittedSupervision = SubmittedSupervision(person: PersonRef, percentage: int)

  /** A submitted grader. */
  datatype SubmittedGrader = SubmittedGrader(person: PersonRef, isPrimaryGrader: bool)

  /** A stored supervision of one thesis. */
  datatype SupervisionRow = SupervisionRow(userId: UserId, percentage: int, isExternal: bool)

  /** A stored grader of one thesis. */
  datatype GraderRow = GraderRow(userId: UserId, isPrimaryGrader: bool, isExternal: bool)

  /** The position of the first user with this email, if any. */
  function FindByEmail(users: seq<UserRow>, email: string): (r: Option<nat>)
    ensures r.Some? ==> r.value < |users| && users[r.value].email == email
    ensures r.Some? ==> forall j :: 0 <= j < r.value ==> users[j].email != email
    ensures r.None? ==> forall j :: 0 <= j < |users| ==> users[j].email != email
  {
    if users == [] then None
    else if users[0].email == email then Some(0)
    else match FindByEmail(users[1..], email)
      case None => None
      case Some(k) => Some(k + 1)
  }

  /**
   * The user a submitted person stands for. An external person whose email
   * is already known is that user, left as it is; otherwise a new external
   * user is created under the next key.
   */
  function ResolveOne(d: Directory, p: PersonRef): (r: (Directory, UserId))
    ensures |d.users| <= |r.0.users| && r.0.users[..|d.users|] == d.users
    ensures p.Internal? ==> r == (d, p.userId)
    ensures p.External? ==> exists k :: 0 <= k < |r.0.users| && r.0.users[k].id == r.1 && r.0.users[k].email == p.email
    ensures p.External? && FindByEmail(d.users, p.email).Some? ==> r == (d, d.users[FindByEmail(d.users, p.email).value].id)
    ensures p.External? && FindByEmail(d.users, p.email).None? ==>
      r == (Directory(d.users + [UserRow(d.nextId, p.firstName, p.lastName, p.email, true)], d.nextId + 1), d.nextId)
  {
    match p
    case Internal(id) => (d, id)
    case External(firstName, lastName, email) =>
      match FindByEmail(d.users, email)
      case Some(k) => (d, d.users[k].id)
      case None =>
        var added := Directory(d.users + [UserRow(d.nextId, firstName, lastName, email, true)], d.nextId + 1);
        assert added.users[|d.users|].email == email;
        (added, d.nextId)
  }

  /** Resolving the submitted people one after another. */
  function ResolveAll(d: Directory, people: seq<PersonRef>): (r: (Directory, seq<UserId>))
    ensures |r.1| == |people|
    decreases |people|
  {
    if people == [] then (d, [])
    else
      var prefix := ResolveAll(d, people[..|people| - 1]);
      var last := ResolveOne(prefix.0, people[|people| - 1]);
      (last.0, prefix.1 + [last.1])
  }

  /** The distinct elements of `ids`, each at its first occurrence. */
  function Dedup(ids: seq<UserId>): (r: seq<UserId>)
    ensures NoDuplicates(r)
    ensures forall x :: x in r <==> x in ids
    ensures |r| <= |ids|
    decreases |ids|
  {
    if ids == [] then []
    else
      var r := Dedup(ids[..|ids| - 1]);
      if ids[|ids| - 1] in r then r else r + [ids[|ids| - 1]]
  }

  /** Whether the user with key `id` is an external user. */
  predicate IsExternalUser(users: seq<UserRow>, id: UserId) {
    exists i :: 0 <= i < |users| && users[i].id == id && users[i].isExternal
  }

  /**
   * One supervision per user in `ids`, in order, flagged external when the
   * user is, all with the same share 100 / |ids| rounded down (see
   * EvenSharesTotal for what that adds up to).
   */
  function EvenSupervisions(ids: seq<UserId>, users: seq<UserRow>): (rows: seq<SupervisionRow>)
    ensures |rows| == |ids|
    ensures forall i :: 0 <= i < |ids| ==> rows[i].userId == ids[i] && (rows[i].isExternal <==> IsExternalUser(users, ids[i]))
    ensures forall i, j :: 0 <= i < |rows| && 0 <= j < |rows| ==> rows[i].percentage == rows[j].percentage
  {
    seq(|ids|, i requires 0 <= i < |ids| => SupervisionRow(ids[i], 100 / |ids|, IsExternalUser(users, ids[i])))
  }

  /** One grader row per submitted grader, with the submitted primary flag. */
  function GraderRows(ids: seq<UserId>, graders: seq<SubmittedGrader>, users: seq<UserRow>): (rows: seq<GraderRow>)
    requires |ids| == |graders|
    ensures |rows| == |graders|
    ensures forall i :: 0 <= i < |rows| ==>
      rows[i].userId == ids[i] && rows[i].isPrimaryGrader == graders[i].isPrimaryGrader &&
      (rows[i].isExternal <==> IsExternalUser(users, ids[i]))
  {
    seq(|ids|, i requires 0 <= i < |ids| => GraderRow(ids[i], graders[i].isPrimaryGrader, IsExternalUser(users, ids[i])))
  }

  function SupervisorPeople(s: seq<SubmittedSupervision>): seq<PersonRef> {
    seq(|s|, i requires 0 <= i < |s| => s[i].person)
  }

  function GraderPeople(g: seq<SubmittedGrader>): seq<PersonRef> {
    seq(|g|, i requires 0 <= i < |g| => g[i].person)
  }

  /** The users table after reconciling, and the supervision and grader rows of the thesis. */
  datatype Reconciled = Reconciled(directory: Directory, supervisions: seq<SupervisionRow>, graders: seq<GraderRow>)

  /**
   * Supervisors are resolved first, then graders; the supervisors are
   * de-duplicated by user and split the thesis evenly.
   */
  function Reconcile(d: Directory, supervisions: seq<SubmittedSupervision>, graders: seq<SubmittedGrader>)
    : (r: Reconciled)
    ensures |r.supervisions| <= |supervisions|
    ensures |r.graders| == |graders|
    ensures forall i :: 0 <= i < |graders| ==> r.graders[i].isPrimaryGrader == graders[i].isPrimaryGrader
  {
    var sup := ResolveAll(d, SupervisorPeople(supervisions));
    var gr := ResolveAll(sup.0, GraderPeople(graders));
    Reconciled(gr.0, EvenSupervisions(Dedup(sup.1), gr.0.users), GraderRows(gr.1, graders, gr.0.users))
  }

  /** The sum of the stored percentages. */
  function StoredTotal(rows: seq<SupervisionRow>): int {
    if rows == [] then 0 else rows[0].percentage + StoredTotal(rows[1..])
  }

  /** The users of the stored supervisions, in order. */
  function SupervisorUserIds(rows: seq<SupervisionRow>): (ids: seq<UserId>)
    ensures |ids| == |rows|
    ensures forall i :: 0 <= i < |rows| ==> ids[i] == rows[i].userId
  {
    seq(|rows|, i requires 0 <= i < |rows| => rows[i].userId)
  }

  // ---------------------------------------------------------------------
  // Resolution

  /**
   * Resolution only appends users: the existing users, internal ones
   * included, keep every field (so an internal user never becomes
   * external), every appended user is external and has a fresh key, and
   * keys stay unique.
   */
  lemma {:induction false} ResolveAllAppendsExternalUsers(d: Directory, people: seq<PersonRef>)
    requires WellKeyed(d)
    ensures var r := ResolveAll(d, people).0;
      && WellKeyed(r)
      && d.nextId <= r.nextId
      && |d.users| <= |r.users| && r.users[..|d.users|] == d.users
      && (forall i :: |d.users| <= i < |r.users| ==> r.users[i].isExternal && d.nextId <= r.users[i].id)
    decreases |people|
  {
    if people != [] {
      var prefix := ResolveAll(d, people[..|people| - 1]);
      ResolveAllAppendsExternalUsers(d, people[..|people| - 1]);
      var p := people[|people| - 1];
      if p.External? && FindByEmail(prefix.0.users, p.email).None? {
        var r := ResolveOne(prefix.0, p).0;
        assert r.users == prefix.0.users + [UserRow(prefix.0.nextId, p.firstName, p.lastName, p.email, true)];
        assert r.users[..|d.users|] == prefix.0.users[..|d.users|];
      }
    }
  }

  /** Appending users keeps the first match of an email that was already present. */
  lemma {:induction false} FindByEmailAppend(users: seq<UserRow>, more: seq<UserRow>, email: string)
    requires FindByEmail(users, email).Some?
    ensures FindByEmail(users + more, email) == FindByEmail(users, email)
    decreases |users|
  {
    assert (users + more)[0] == users[0];
    if users[0].email != email {
      assert (users + more)[1..] == users[1..] + more;
      FindByEmailAppend(users[1..], more, email);
    }
  }

  /**
   * What each submitted person resolves to: an internal reference to its
   * own key; an external person to a user with that email, and to the first
   * existing user with that email when there was one before.
   */
  lemma {:induction false} ResolveAllEntries(d: Directory, people: seq<PersonRef>, i: nat)
    requires i < |people|
    ensures |ResolveAll(d, people).1| == |people|
    ensures people[i].Internal? ==> ResolveAll(d, people).1[i] == people[i].userId
    ensures people[i].External? ==>
      exists k :: 0 <= k < |ResolveAll(d, people).0.users| &&
        ResolveAll(d, people).0.users[k].id == ResolveAll(d, people).1[i] &&
        ResolveAll(d, people).0.users[k].email == people[i].email
    ensures people[i].External? && FindByEmail(d.users, people[i].email).Some? ==>
      ResolveAll(d, people).1[i] == d.users[FindByEmail(d.users, people[i].email).value].id
    decreases |people|
  {
    var n := |people|;
    var init := people[..n - 1];
    var prefix := ResolveAll(d, init);
    UsersOnlyGrow(d, people);
    if i < n - 1 {
      ResolveAllEntries(d, init, i);
      assert init[i] == people[i];
      var r := ResolveAll(d, people);
      assert r.1[i] == prefix.1[i];
      if people[i].External? {
        var k :| 0 <= k < |prefix.0.users| && prefix.0.users[k].id == prefix.1[i] && prefix.0.users[k].email == people[i].email;
        assert r.0.users[k] == prefix.0.users[k];
      }
    } else {
      UsersOnlyGrow(d, init);
      var p := people[i];
      if p.External? {
        match FindByEmail(prefix.0.users, p.email)
        case Some(k) =>
        case None =>
          assert ResolveAll(d, people).0.users[|prefix.0.users|].email == p.email;
      }
      if p.External? && FindByEmail(d.users, p.email).Some? {
        var m := prefix.0.users[|d.users|..];
        assert prefix.0.users == d.users + m;
        FindByEmailAppend(d.users, m, p.email);
      }
    }
  }

  /** Resolution keeps the users it started with, in place. */
  lemma {:induction false} UsersOnlyGrow(d: Directory, people: seq<PersonRef>)
    ensures |d.users| <= |ResolveAll(d, people).0.users|
    ensures ResolveAll(d, people).0.users[..|d.users|] == d.users
    decreases |people|
  {
    if people != [] {
      var prefix := ResolveAll(d, people[..|people| - 1]);
      UsersOnlyGrow(d, people[..|people| - 1]);
      var r := ResolveAll(d, people).0;
      assert r.users[..|d.users|] == r.users[..|prefix.0.users|][..|d.users|];
    }
  }

  // ---------------------------------------------------------------------
  // De-duplication and the even split

  /** De-duplication keeps the users in the order they were first submitted. */
  lemma {:induction false} DedupKeepsSubmissionOrder(ids: seq<UserId>)
    ensures IsSubsequence(Dedup(ids), ids)
    decreases |ids|
  {
    if ids != [] {
      var init, x := ids[..|ids| - 1], ids[|ids| - 1];
      DedupKeepsSubmissionOrder(init);
      assert ids == init + [x];
      SubsequenceAppend(Dedup(init), init, x);
    }
  }

  /** Appending to the whole keeps a subsequence; appending to both sides too. */
  lemma {:induction false} SubsequenceAppend<T>(a: seq<T>, b: seq<T>, x: T)
    requires IsSubsequence(a, b)
    ensures IsSubsequence(a, b + [x])
    ensures IsSubsequence(a + [x], b + [x])
    decreases |b|
  {
    if b == [] {
      assert a == [];
      assert b + [x] == [x];
      assert ([x])[1..] == [];
    } else {
      assert (b + [x])[1..] == b[1..] + [x];
      assert (b + [x])[0] == b[0];
      if a == [] {
        SubsequenceAppend(a, b[1..], x);
        assert IsSubsequence(a + [x], b[1..] + [x]);
        if x == b[0] {
          assert (a + [x])[1..] == [];
        }
      } else {
        assert (a + [x])[0] == a[0];
        assert (a + [x])[1..] == a[1..] + [x];
        if a[0] == b[0] {
          SubsequenceAppend(a[1..], b[1..], x);
        } else {
          SubsequenceAppend(a, b[1..], x);
        }
      }
    }
  }

  /** The same user submitted any number of times is one distinct user. */
  lemma {:induction false} DedupOfRepeats(ids: seq<UserId>, u: UserId)
    requires |ids| >= 1
    requires forall i :: 0 <= i < |ids| ==> ids[i] == u
    ensures Dedup(ids) == [u]
    decreases |ids|
  {
    if |ids| > 1 {
      DedupOfRepeats(ids[..|ids| - 1], u);
    }
  }

  /**
   * Equal shares of 100, rounded down, add up to 100 when the number of
   * rows divides 100; otherwise the remainder is dropped and the total is
   * below 100 by less than the number of rows.
   */
  lemma {:induction false} EvenSharesTotal(ids: seq<UserId>, users: seq<UserRow>)
    requires |ids| > 0
    ensures 100 - |ids| < StoredTotal(EvenSupervisions(ids, users)) <= 100
    ensures 100 % |ids| == 0 ==> StoredTotal(EvenSupervisions(ids, users)) == 100
  {
    var n := |ids|;
    var rows := EvenSupervisions(ids, users);
    ConstantTotal(rows, 100 / n);
    assert 100 == n * (100 / n) + 100 % n;
  }

  /** Rows that all carry share `p` add up to |rows| * p. */
  lemma {:induction false} ConstantTotal(rows: seq<SupervisionRow>, p: int)
    requires forall i :: 0 <= i < |rows| ==> rows[i].percentage == p
    ensures StoredTotal(rows) == |rows| * p
  {
    if rows != [] {
      ConstantTotal(rows[1..], p);
    }
  }

  /**
   * The stored supervisions: one row per distinct resolved user, in order
   * of first submission, with no user twice, every row the same share, and
   * the shares adding up to 100 when the number of users divides 100.
   */
  lemma ReconciledSupervisions(d: Directory, supervisions: seq<SubmittedSupervision>, graders: seq<SubmittedGrader>)
    ensures var r := Reconcile(d, supervisions, graders);
      var ids := ResolveAll(d, SupervisorPeople(supervisions)).1;
      && |r.supervisions| == |Dedup(ids)|
      && (forall i :: 0 <= i < |r.supervisions| ==> r.supervisions[i].userId == Dedup(ids)[i])
      && SupervisorUserIds(r.supervisions) == Dedup(ids)
      && (forall u :: u in ids <==> exists i :: 0 <= i < |r.supervisions| && r.supervisions[i].userId == u)
      && (forall i, j :: 0 <= i < |r.supervisions| && 0 <= j < |r.supervisions| ==>
            r.supervisions[i].percentage == r.supervisions[j].percentage)
      && (|r.supervisions| > 0 ==> 100 - |r.supervisions| < StoredTotal(r.supervisions) <= 100)
      && (|r.supervisions| > 0 && 100 % |r.supervisions| == 0 ==> StoredTotal(r.supervisions) == 100)
  {
    var r := Reconcile(d, supervisions, graders);
    var ids := ResolveAll(d, SupervisorPeople(supervisions)).1;
    var dd := Dedup(ids);
    forall u | u in ids ensures exists i :: 0 <= i < |r.supervisions| && r.supervisions[i].userId == u {
      var i :| 0 <= i < |dd| && dd[i] == u;
      assert r.supervisions[i].userId == u;
    }
    if |dd| > 0 {
      EvenSharesTotal(dd, r.directory.users);
    }
  }

  /** Submitting the same internal user any number of times leaves one supervision at 100. */
  lemma RepeatedSupervisorGetsEverything(d: Directory, supervisions: seq<SubmittedSupervision>, graders: seq<SubmittedGrader>, u: UserId)
    requires |supervisions| >= 1
    requires forall i :: 0 <= i < |supervisions| ==> supervisions[i].person == Internal(u)
    ensures |Reconcile(d, supervisions, graders).supervisions| == 1
    ensures Reconcile(d, supervisions, graders).supervisions[0].userId == u
    ensures Reconcile(d, supervisions, graders).supervisions[0].percentage == 100
  {
    var people := SupervisorPeople(supervisions);
    var ids := ResolveAll(d, people).1;
    forall i | 0 <= i < |ids| ensures ids[i] == u {
      ResolveAllEntries(d, people, i);
    }
    DedupOfRepeats(ids, u);
  }

  // ---------------------------------------------------------------------
  // External supervisors

  /** Resolving one more person after a list of people. */
  lemma ResolveAllSnoc(d: Directory, people: seq<PersonRef>, p: PersonRef)
    ensures var prefix := ResolveAll(d, people);
      var last := ResolveOne(prefix.0, p);
      ResolveAll(d, people + [p]) == (last.0, prefix.1 + [last.1])
  {
    assert (people + [p])[..|people|] == people;
  }

  /**
   * A known user by key, a newcomer with an unknown email and the known
   * user's email again: the newcomer is inserted as an external user and
   * the email resolves to the known user.
   */
  lemma KnownAndNewcomerResolve(d: Directory, u: nat, newcomer: PersonRef, known: PersonRef)
    requires u < |d.users|
    requires known.External? && FindByEmail(d.users, known.email) == Some(u)
    requires newcomer.External? && FindByEmail(d.users, newcomer.email).None? && newcomer.email != known.email
    ensures var row := UserRow(d.nextId, newcomer.firstName, newcomer.lastName, newcomer.email, true);
      ResolveAll(d, [Internal(d.users[u].id), newcomer, known])
        == (Directory(d.users + [row], d.nextId + 1), [d.users[u].id, d.nextId, d.users[u].id])
  {
    var id := d.users[u].id;
    var row := UserRow(d.nextId, newcomer.firstName, newcomer.lastName, newcomer.email, true);
    var d1 := Directory(d.users + [row], d.nextId + 1);
    ResolveAllSnoc(d, [], Internal(id));
    assert ResolveAll(d, []) == (d, []);
    assert [] + [Internal(id)] == [Internal(id)] && [] + [id] == [id];
    assert ResolveAll(d, [Internal(id)]) == (d, [id]);
    assert ResolveOne(d, newcomer) == (d1, d.nextId);
    ResolveAllSnoc(d, [Internal(id)], newcomer);
    assert [Internal(id)] + [newcomer] == [Internal(id), newcomer] && [id] + [d.nextId] == [id, d.nextId];
    assert ResolveAll(d, [Internal(id), newcomer]) == (d1, [id, d.nextId]);
    FindByEmailAppend(d.users, [row], known.email);
    assert d1.users[u] == d.users[u];
    assert ResolveOne(d1, known) == (d1, id);
    ResolveAllSnoc(d, [Internal(id), newcomer], known);
    assert [Internal(id), newcomer] + [known] == [Internal(id), newcomer, known];
    assert [id, d.nextId] + [id] == [id, d.nextId, id];
  }

  /** A user submitted again after another one is dropped. */
  lemma DedupOfRepeatedFirst(a: UserId, b: UserId)
    requires a != b
    ensures Dedup([a, b, a]) == [a, b]
  {
    assert [a, b, a][..2] == [a, b] && [a, b][..1] == [a] && [a][..0] == [];
    assert Dedup([a]) == [a];
    assert Dedup([a, b]) == [a, b];
  }

  /**
   * A known user listed once by key and once more as an external person
   * with the user's email, next to a newcomer with an unknown email: the
   * newcomer becomes a new external user, the known user is reused and
   * left as it was, and the two distinct supervisors share the thesis
   * 50/50 whatever percentages were submitted.
   */
  lemma {:induction false} KnownEmailIsNotDuplicated(
    d: Directory, u: nat, newcomer: PersonRef, known: PersonRef, shares: seq<int>, graders: seq<SubmittedGrader>)
    requires WellKeyed(d)
    requires u < |d.users| && !d.users[u].isExternal
    requires known.External? && FindByEmail(d.users, known.email) == Some(u)
    requires newcomer.External? && FindByEmail(d.users, newcomer.email).None? && newcomer.email != known.email
    requires |shares| == 3
    ensures var sups := [SubmittedSupervision(Internal(d.users[u].id), shares[0]),
                         SubmittedSupervision(newcomer, shares[1]),
                         SubmittedSupervision(known, shares[2])];
      var r := Reconcile(d, sups, graders);
      && r.supervisions == [SupervisionRow(d.users[u].id, 50, false), SupervisionRow(d.nextId, 50, true)]
      && |d.users| < |r.directory.users|
      && r.directory.users[u] == d.users[u]
      && r.directory.users[|d.users|] == UserRow(d.nextId, newcomer.firstName, newcomer.lastName, newcomer.email, true)
  {
    var id := d.users[u].id;
    var sups := [SubmittedSupervision(Internal(id), shares[0]),
                 SubmittedSupervision(newcomer, shares[1]),
                 SubmittedSupervision(known, shares[2])];
    assert SupervisorPeople(sups) == [Internal(id), newcomer, known];
    var row := UserRow(d.nextId, newcomer.firstName, newcomer.lastName, newcomer.email, true);
    var d1 := Directory(d.users + [row], d.nextId + 1);
    KnownAndNewcomerResolve(d, u, newcomer, known);
    DedupOfRepeatedFirst(id, d.nextId);
    // Resolving graders only appends users with fresh keys.
    ResolveAllAppendsExternalUsers(d, SupervisorPeople(sups));
    var gr := ResolveAll(d1, GraderPeople(graders));
    UsersOnlyGrow(d1, GraderPeople(graders));
    ResolveAllAppendsExternalUsers(d1, GraderPeople(graders));
    var users := gr.0.users;
    assert users[..|d1.users|] == d1.users;
    assert users[u] == d1.users[u] == d.users[u];
    assert users[|d.users|] == d1.users[|d.users|] == row;
    assert !IsExternalUser(users, id);
    assert IsExternalUser(users, d.nextId);
    var rows := EvenSupervisions([id, d.nextId], users);
    assert rows[0] == SupervisionRow(id, 50, false);
    assert rows[1] == SupervisionRow(d.nextId, 50, true);
  }
}
