/** Which objects a user may access: the permission query and the set it is meant to compute. */
module Permissions {
  import opened Basics

  // ---------- codenames ----------

  /** What follows the first dot, or everything if there is none. The part before it is not used. */
  function CodenameOf(perm: string): string {
    if '.' in perm then AfterDot(perm) else perm
  }

  function AfterDot(perm: string): string
    requires '.' in perm
  {
    if perm[0] == '.' then perm[1..] else AfterDot(perm[1..])
  }

  lemma {:induction false} CodenameOfQualified(app: string, codename: string)
    requires '.' !in app
    ensures CodenameOf(app + "." + codename) == codename
  {
    var perm := app + "." + codename;
    assert perm[|app|] == '.';
    if app != "" {
      assert app[0] in app && perm[0] == app[0];
      assert perm[1..] == app[1..] + "." + codename;
      CodenameOfQualified(app[1..], codename);
    } else {
      assert perm[1..] == codename;
    }
  }

  lemma CodenameOfPlain(perm: string)
    requires '.' !in perm
    ensures CodenameOf(perm) == perm
  {
  }

  // ---------- the tables ----------

  /** A permission on an object, of a user or of a group. */
  datatype Grant = Grant(owner: nat, pk: int, codename: string)

  datatype Database = Database(userGrants: seq<Grant>, groupGrants: seq<Grant>, groupsOf: map<nat, set<nat>>,
                               anonymous: User)

  datatype User = User(id: nat, isSuperuser: bool, isStaff: bool, isTenantManager: bool, isAnonymous: bool,
                       globalPerms: set<string>)

  datatype Options = Options(withStaff: bool, useGroups: bool, anyPerm: bool, withSuperuser: bool,
                             withTenantManager: bool, acceptGlobalPerms: bool)

  /** The user permission table has one row per user, object and permission. */
  ghost predicate OneRowEach(grants: seq<Grant>) {
    forall i, j | 0 <= i < j < |grants| :: grants[i] != grants[j]
  }

  function Groups(db: Database, user: User): set<nat> {
    if user.id in db.groupsOf then db.groupsOf[user.id] else {}
  }

  /** The rows of some owners, for some codenames or, if there are none of those, for all. */
  function Rows(grants: seq<Grant>, owners: set<nat>, codenames: set<string>): seq<Grant> {
    if grants == [] then []
    else
      var g, rest := grants[0], Rows(grants[1..], owners, codenames);
      if g.owner in owners && (codenames == {} || g.codename in codenames) then [g] + rest else rest
  }

  lemma {:induction false} RowsMeaning(grants: seq<Grant>, owners: set<nat>, codenames: set<string>)
    ensures forall g :: g in Rows(grants, owners, codenames) <==>
            g in grants && g.owner in owners && (codenames == {} || g.codename in codenames)
    ensures OneRowEach(grants) ==> OneRowEach(Rows(grants, owners, codenames))
  {
    if grants != [] {
      RowsMeaning(grants[1..], owners, codenames);
      var rest := Rows(grants[1..], owners, codenames);
      if OneRowEach(grants) {
        assert grants[0] !in grants[1..];
        assert grants[0] !in rest;
      }
    }
  }

  /** The codenames some rows hold for an object. */
  function Codes(rows: seq<Grant>, pk: int): set<string> {
    set g | g in rows && g.pk == pk :: g.codename
  }

  // ---------- what the query is for ----------

  predicate Privileged(user: User, o: Options) {
    (o.withSuperuser && user.isSuperuser) || (o.withStaff && user.isStaff)
        || (o.withTenantManager && user.isTenantManager)
  }

  /** The user whose grants count. */
  function Effective(db: Database, user: User): User {
    if user.isAnonymous then db.anonymous else user
  }

  /** The required codenames the user holds for every object, where the options let these count. */
  function GlobalPart(user: User, o: Options, codenames: set<string>): set<string> {
    if o.acceptGlobalPerms && o.withSuperuser then codenames * user.globalPerms else {}
  }

  /** All permissions of a user on an object. */
  function PermsOn(db: Database, user: User, o: Options, pk: int): set<string> {
    Codes(Rows(db.userGrants, {user.id}, {}), pk)
    + if o.useGroups then Codes(Rows(db.groupGrants, Groups(db, user), {}), pk) else {}
  }

  /** The specification: an object counts if the user holds every required codename, or at least one, on it or
      globally. */
  predicate Allowed(db: Database, user: User, o: Options, codenames: set<string>, pk: int) {
    var held := PermsOn(db, user, o, pk) + GlobalPart(user, o, codenames);
    if o.anyPerm then codenames * held != {} else codenames <= held
  }

  // ---------- what the query does ----------

  /** The call the query does not answer as specified: some of the required codenames are held globally, at least
      two are not, and groups count. Then one of these held by a group is taken for all of them. */
  predicate Mixed(user: User, o: Options, codenames: set<string>) {
    var held := GlobalPart(user, o, codenames);
    o.useGroups && !o.anyPerm && held != {} && |codenames - held| > 1
  }

  /** The objects the query selects for a user without privileges, in every case. */
  predicate Selected(db: Database, user: User, o: Options, codenames: set<string>, pk: int) {
    var asked := codenames - GlobalPart(user, o, codenames);
    if codenames == {} then PermsOn(db, user, o, pk) != {}
    else if Mixed(user, o, codenames) then
      asked <= Codes(Rows(db.userGrants, {user.id}, {}), pk)
          || asked * Codes(Rows(db.groupGrants, Groups(db, user), {}), pk) != {}
    else Allowed(db, user, o, codenames, pk)
  }

  // ---------- sorting and grouping ----------

  ghost predicate ByPk(rows: seq<Grant>) {
    forall i, j | 0 <= i < j < |rows| :: rows[i].pk <= rows[j].pk
  }

  function Insert(g: Grant, rows: seq<Grant>): seq<Grant> {
    if rows == [] || g.pk <= rows[0].pk then [g] + rows else [rows[0]] + Insert(g, rows[1..])
  }

  function SortByPk(rows: seq<Grant>): seq<Grant> {
    if rows == [] then [] else Insert(rows[0], SortByPk(rows[1..]))
  }

  lemma {:induction false} InsertMeaning(g: Grant, rows: seq<Grant>)
    requires ByPk(rows)
    ensures ByPk(Insert(g, rows)) && forall x :: x in Insert(g, rows) <==> x == g || x in rows
  {
    if rows != [] && g.pk > rows[0].pk {
      InsertMeaning(g, rows[1..]);
      var rest := Insert(g, rows[1..]);
      forall j | 0 <= j < |rest| ensures rows[0].pk <= rest[j].pk {
        assert rest[j] in rest;
        assert forall k | 0 < k < |rows| :: rows[0].pk <= rows[k].pk;
      }
    }
  }

  lemma {:induction false} SortMeaning(rows: seq<Grant>)
    ensures ByPk(SortByPk(rows)) && forall x :: x in SortByPk(rows) <==> x in rows
  {
    if rows != [] {
      SortMeaning(rows[1..]);
      InsertMeaning(rows[0], SortByPk(rows[1..]));
    }
  }

  /** The objects whose rows together hold all codenames. Rows of an object stand side by side only because they are
      sorted. */
  method GroupByPk(data: seq<Grant>, codenames: set<string>) returns (pkList: seq<int>)
    ensures forall pk :: pk in pkList <==> (exists g :: g in data && g.pk == pk) && codenames <= Codes(data, pk)
  {
    SortMeaning(data);
    var rows := SortByPk(data);
    assert forall pk :: Codes(rows, pk) == Codes(data, pk);
    pkList := [];
    var i := 0;
    while i < |rows|
      invariant 0 <= i <= |rows|
      invariant forall j, k | 0 <= j < i <= k < |rows| :: rows[j].pk < rows[k].pk
      invariant forall pk :: pk in pkList <==> pk in Seen(rows, i) && codenames <= Codes(rows, pk)
    {
      var pk := rows[i].pk;
      var objCodenames, end := NextGroup(rows, i);
      GroupedSoFar(rows, i, end, pk);
      i := end;
      if codenames <= objCodenames {
        pkList := pkList + [pk];
      }
    }
    forall pk ensures pk in Seen(rows, |rows|) <==> exists g :: g in data && g.pk == pk {
      SeenAll(rows, data, pk);
    }
  }

  /** The objects of the first rows. */
  function Seen(rows: seq<Grant>, end: nat): set<int>
    requires end <= |rows|
  {
    set j | 0 <= j < end :: rows[j].pk
  }

  lemma SeenAll(rows: seq<Grant>, data: seq<Grant>, pk: int)
    requires forall x :: x in rows <==> x in data
    ensures pk in Seen(rows, |rows|) <==> exists g :: g in data && g.pk == pk
  {
  }

  lemma GroupedSoFar(rows: seq<Grant>, start: nat, end: nat, pk: int)
    requires start < end <= |rows| && forall j | start <= j < end :: rows[j].pk == pk
    ensures Seen(rows, end) == Seen(rows, start) + {pk}
  {
    assert rows[start].pk == pk;
  }

  /** The codenames of the group that begins at an index, and where it ends. */
  method NextGroup(rows: seq<Grant>, start: nat) returns (objCodenames: set<string>, end: nat)
    requires ByPk(rows) && start < |rows| && forall j | 0 <= j < start :: rows[j].pk < rows[start].pk
    ensures start < end <= |rows| && forall j | start <= j < end :: rows[j].pk == rows[start].pk
    ensures forall j | end <= j < |rows| :: rows[j].pk > rows[start].pk
    ensures objCodenames == Codes(rows, rows[start].pk)
  {
    objCodenames, end := {}, start;
    while end < |rows| && rows[end].pk == rows[start].pk
      invariant start <= end <= |rows| && forall j | start <= j < end :: rows[j].pk == rows[start].pk
      invariant objCodenames == set j | start <= j < end :: rows[j].codename
    {
      objCodenames := objCodenames + {rows[end].codename};
      end := end + 1;
    }
    GroupIsWhole(rows, start, end, rows[start].pk, objCodenames);
  }

  lemma GroupIsWhole(rows: seq<Grant>, start: nat, end: nat, pk: int, codes: set<string>)
    requires ByPk(rows) && start < end <= |rows| && (forall j | start <= j < end :: rows[j].pk == pk)
    requires (end < |rows| ==> rows[end].pk != pk) && forall j | 0 <= j < start :: rows[j].pk < pk
    requires codes == set j | start <= j < end :: rows[j].codename
    ensures codes == Codes(rows, pk) && forall j | end <= j < |rows| :: rows[j].pk > pk
  {
    forall j | end <= j < |rows| ensures rows[j].pk > pk {
      assert rows[end - 1].pk <= rows[end].pk && (end < j ==> rows[end].pk <= rows[j].pk);
    }
    forall code | code in Codes(rows, pk) ensures code in codes {
      var g :| g in rows && g.pk == pk && g.codename == code;
      var j :| 0 <= j < |rows| && rows[j] == g;
      assert start <= j < end;
    }
    forall code | code in codes ensures code in Codes(rows, pk) {
      var j :| start <= j < end && rows[j].codename == code;
      assert rows[j] in rows;
    }
  }

  // ---------- counting ----------

  function Count(rows: seq<Grant>, pk: int): nat {
    if rows == [] then 0 else (if rows[0].pk == pk then 1 else 0) + Count(rows[1..], pk)
  }

  /** Rows of one user that are all different have as many codenames as there are rows. */
  lemma {:induction false} CountCodes(rows: seq<Grant>, owner: nat, pk: int)
    requires OneRowEach(rows) && forall g | g in rows :: g.owner == owner
    ensures Count(rows, pk) == |Codes(rows, pk)|
  {
    if rows == [] {
      assert Codes(rows, pk) == {};
    } else {
      var g, rest := rows[0], rows[1..];
      assert forall i | 0 <= i < |rest| :: rest[i] == rows[i + 1];
      CountCodes(rest, owner, pk);
      assert g !in rest && g.owner == owner;
      if g.pk == pk {
        assert Codes(rows, pk) == Codes(rest, pk) + {g.codename};
        assert g.codename !in Codes(rest, pk) by {
          assert forall x | x in rest && x.pk == pk && x.codename == g.codename :: x == g;
        }
      } else {
        assert Codes(rows, pk) == Codes(rest, pk);
      }
    }
  }

  /** Counting rows decides whether all codenames are there. */
  lemma CountDecides(grants: seq<Grant>, owner: nat, codenames: set<string>, pk: int)
    requires OneRowEach(grants) && codenames != {}
    ensures Count(Rows(grants, {owner}, codenames), pk) >= |codenames| <==>
            codenames <= Codes(Rows(grants, {owner}, {}), pk)
  {
    var found, all := Codes(Rows(grants, {owner}, codenames), pk), Codes(Rows(grants, {owner}, {}), pk);
    assert Count(Rows(grants, {owner}, codenames), pk) == |found| by {
      CountOwned(grants, owner, codenames, pk);
    }
    assert found == codenames * all by {
      FilteredCodes(grants, {owner}, codenames, pk);
    }
    SharesAll(codenames, all);
  }

  lemma SharesAll(a: set<string>, b: set<string>)
    ensures |a * b| >= |a| <==> a <= b
  {
    SubsetSize(a * b, a);
    assert a * b == a <==> a <= b;
  }

  lemma CountOwned(grants: seq<Grant>, owner: nat, codenames: set<string>, pk: int)
    requires OneRowEach(grants)
    ensures Count(Rows(grants, {owner}, codenames), pk) == |Codes(Rows(grants, {owner}, codenames), pk)|
  {
    RowsMeaning(grants, {owner}, codenames);
    CountCodes(Rows(grants, {owner}, codenames), owner, pk);
  }

  lemma FilteredCodes(grants: seq<Grant>, owners: set<nat>, codenames: set<string>, pk: int)
    requires codenames != {}
    ensures Codes(Rows(grants, owners, codenames), pk) == codenames * Codes(Rows(grants, owners, {}), pk)
  {
    RowsMeaning(grants, owners, codenames);
    RowsMeaning(grants, owners, {});
    var all, some := Rows(grants, owners, {}), Rows(grants, owners, codenames);
    forall code | code in codenames * Codes(all, pk) ensures code in Codes(some, pk) {
      var g :| g in all && g.pk == pk && g.codename == code;
      assert g in some;
    }
  }

  // ---------- the query ----------

  function CodenamesOf(perms: seq<string>): set<string> {
    set i | 0 <= i < |perms| :: CodenameOf(perms[i])
  }

  function Pks(rows: seq<Grant>): set<int> {
    set g | g in rows :: g.pk
  }

  lemma PksMeaning(grants: seq<Grant>, owners: set<nat>, codenames: set<string>, pk: int)
    ensures pk in Pks(Rows(grants, owners, codenames)) <==>
            if codenames == {} then Codes(Rows(grants, owners, {}), pk) != {}
                else codenames * Codes(Rows(grants, owners, {}), pk) != {}
  {
    var rows := Rows(grants, owners, codenames);
    assert pk in Pks(rows) <==> Codes(rows, pk) != {} by {
      assert forall g | g in rows && g.pk == pk :: g.codename in Codes(rows, pk);
    }
    if codenames != {} {
      FilteredCodes(grants, owners, codenames, pk);
    }
  }

  /** The required codenames the user holds globally, and the rest. */
  method SplitGlobal(user: User, o: Options, required: set<string>)
    returns (globalPerms: set<string>, codenames: set<string>)
    ensures globalPerms == GlobalPart(user, o, required) && codenames == required - globalPerms
  {
    globalPerms, codenames := {}, required;
    if o.acceptGlobalPerms && o.withSuperuser {
      var left := required;
      while left != {}
        invariant left <= required && globalPerms == (required - left) * user.globalPerms
      {
        var code :| code in left;
        if code in user.globalPerms {
          globalPerms := globalPerms + {code};
        }
        left := left - {code};
      }
      left := globalPerms;
      while left != {}
        invariant left <= globalPerms <= required && codenames == required - (globalPerms - left)
      {
        var code :| code in left;
        codenames := codenames - {code};
        left := left - {code};
      }
    }
  }

  /** The object-based part of the query, for the codenames that are not held globally. */
  method ObjectBased(db: Database, user: User, o: Options, codenames: set<string>, hasGlobalPerms: bool,
                     queryset: set<int>)
      returns (objects: set<int>)
    requires OneRowEach(db.userGrants)
    ensures objects == set pk | pk in queryset && SelectedHere(db, user, o, codenames, hasGlobalPerms, pk)
  {
    var userRows := Rows(db.userGrants, {user.id}, codenames);
    var groupRows := [];
    if o.useGroups {
      groupRows := Rows(db.groupGrants, Groups(db, user), codenames);
      if !o.anyPerm && |codenames| > 1 && !hasGlobalPerms {
        var pkList := GroupByPk(userRows + groupRows, codenames);
        objects := set pk | pk in queryset && pk in pkList;
        forall pk | pk in queryset ensures pk in pkList <==> SelectedHere(db, user, o, codenames, hasGlobalPerms, pk) {
          BothCodes(db, user, o, codenames, pk);
        }
        return;
      }
    }
    var values := Pks(userRows);
    if !o.anyPerm && |codenames| > 1 {
      values := set g | g in userRows && Count(userRows, g.pk) >= |codenames| :: g.pk;
    }
    if o.useGroups {
      values := values + Pks(groupRows);
    }
    objects := queryset * values;
    forall pk | pk in queryset ensures pk in values <==> SelectedHere(db, user, o, codenames, hasGlobalPerms, pk) {
      PksMeaning(db.userGrants, {user.id}, codenames, pk);
      PksMeaning(db.groupGrants, Groups(db, user), codenames, pk);
      if |codenames| > 1 {
        CountDecides(db.userGrants, user.id, codenames, pk);
        CountedPks(userRows, |codenames|, pk);
      } else {
        SingleCodename(codenames);
      }
    }
  }

  /** What the object-based part selects. */
  predicate SelectedHere(db: Database, user: User, o: Options, codenames: set<string>, hasGlobalPerms: bool, pk: int) {
    var own := Codes(Rows(db.userGrants, {user.id}, {}), pk);
    var theirs := if o.useGroups then Codes(Rows(db.groupGrants, Groups(db, user), {}), pk) else {};
    if codenames == {} then own + theirs != {}
    else if o.anyPerm then codenames * (own + theirs) != {}
    else if hasGlobalPerms && |codenames| > 1 then codenames <= own || codenames * theirs != {}
    else codenames <= own + theirs
  }

  lemma BothCodes(db: Database, user: User, o: Options, codenames: set<string>, pk: int)
    requires codenames != {}
    ensures var data := Rows(db.userGrants, {user.id}, codenames) + Rows(db.groupGrants, Groups(db, user), codenames);
            (exists g :: g in data && g.pk == pk) && codenames <= Codes(data, pk) <==>
            codenames <= Codes(Rows(db.userGrants, {user.id}, {}), pk)
                + Codes(Rows(db.groupGrants, Groups(db, user), {}), pk)
  {
    var a, b := Rows(db.userGrants, {user.id}, codenames), Rows(db.groupGrants, Groups(db, user), codenames);
    FilteredCodes(db.userGrants, {user.id}, codenames, pk);
    FilteredCodes(db.groupGrants, Groups(db, user), codenames, pk);
    assert Codes(a + b, pk) == Codes(a, pk) + Codes(b, pk);
    var code :| code in codenames;
    assert code in Codes(a + b, pk) ==> exists g: Grant :: g in a + b && g.pk == pk;
  }

  lemma {:induction false} CountedPks(rows: seq<Grant>, n: nat, pk: int)
    requires n > 0
    ensures pk in (set g | g in rows && Count(rows, g.pk) >= n :: g.pk) <==> Count(rows, pk) >= n
  {
    if Count(rows, pk) > 0 {
      CountPositive(rows, pk);
    }
  }

  lemma {:induction false} CountPositive(rows: seq<Grant>, pk: int)
    requires Count(rows, pk) > 0
    ensures exists g :: g in rows && g.pk == pk
  {
    if rows[0].pk != pk {
      CountPositive(rows[1..], pk);
    }
  }

  lemma SingleCodename(codenames: set<string>)
    requires |codenames| <= 1
    ensures codenames == {} || exists x :: codenames == {x}
  {
    if codenames != {} {
      var x :| x in codenames;
      SubsetSize({x}, codenames);
    }
  }

  method RequiredCodenames(perms: seq<string>) returns (codenames: set<string>)
    ensures codenames == CodenamesOf(perms)
  {
    codenames := {};
    for i := 0 to |perms|
      invariant codenames == set k | 0 <= k < i :: CodenameOf(perms[k])
    {
      codenames := codenames + {CodenameOf(perms[i])};
    }
  }

  /** The query for a user without privileges. */
  method ForUser(db: Database, user: User, o: Options, required: set<string>, queryset: set<int>)
    returns (objects: set<int>)
    requires OneRowEach(db.userGrants)
    ensures objects == set pk | pk in queryset && Selected(db, user, o, required, pk)
  {
    var globalPerms, codenames := SplitGlobal(user, o, required);
    if globalPerms != {} && (codenames == {} || o.anyPerm) {
      objects := queryset;
      GlobalSuffices(db, user, o, required, queryset);
    } else {
      objects := ObjectBased(db, user, o, codenames, globalPerms != {}, queryset);
      forall pk
        ensures SelectedHere(db, user, o, codenames, globalPerms != {}, pk) <==> Selected(db, user, o, required, pk)
      {
        SelectedParts(db, user, o, required, pk);
      }
    }
  }

  lemma GlobalSuffices(db: Database, user: User, o: Options, required: set<string>, queryset: set<int>)
    requires var held := GlobalPart(user, o, required); held != {} && (required - held == {} || o.anyPerm)
    ensures forall pk | pk in queryset :: Selected(db, user, o, required, pk)
  {
  }

  method GetObjectsForUserCustom(db: Database, requester: User, perms: seq<string>, queryset: set<int>, o: Options)
    returns (objects: set<int>)
    requires OneRowEach(db.userGrants)
    ensures requester.isSuperuser && o.withSuperuser ==> objects == queryset
    ensures requester.isStaff && o.withStaff ==> objects == queryset
    ensures requester.isTenantManager && o.withTenantManager ==> objects == queryset
    ensures !Privileged(requester, o) ==>
              objects == set pk | pk in queryset && Selected(db, Effective(db, requester), o, CodenamesOf(perms), pk)
    // in terms of the rows, where globally held permissions do not count
    ensures !(requester.isSuperuser && o.withSuperuser) && !(requester.isStaff && o.withStaff)
            && !(requester.isTenantManager && o.withTenantManager) && !(o.acceptGlobalPerms && o.withSuperuser) ==>
              var user := if requester.isAnonymous then db.anonymous else requester;
              forall pk :: pk in objects <==>
                && pk in queryset
                && if perms == [] then exists code :: Holds(db, user, o, pk, code)
                   else if o.anyPerm then exists i :: 0 <= i < |perms| && Holds(db, user, o, pk, CodenameOf(perms[i]))
                   else forall i | 0 <= i < |perms| :: Holds(db, user, o, pk, CodenameOf(perms[i]))
  {
    var required := RequiredCodenames(perms);
    if o.withSuperuser && requester.isSuperuser {
      return queryset;
    }
    if o.withStaff && requester.isStaff {
      return queryset;
    }
    if o.withTenantManager && requester.isTenantManager {
      return queryset;
    }
    var user := if requester.isAnonymous then db.anonymous else requester;
    objects := ForUser(db, user, o, required, queryset);
    if !(o.acceptGlobalPerms && o.withSuperuser) {
      forall pk
        ensures Selected(db, user, o, required, pk) <==>
                if perms == [] then exists code :: Holds(db, user, o, pk, code)
                else if o.anyPerm then exists i :: 0 <= i < |perms| && Holds(db, user, o, pk, CodenameOf(perms[i]))
                else forall i | 0 <= i < |perms| :: Holds(db, user, o, pk, CodenameOf(perms[i]))
      {
        AnswerByRows(db, user, o, perms, pk);
      }
    }
  }

  lemma SelectedParts(db: Database, user: User, o: Options, required: set<string>, pk: int)
    requires var held := GlobalPart(user, o, required); held == {} || (required - held != {} && !o.anyPerm)
    ensures var held := GlobalPart(user, o, required);
            SelectedHere(db, user, o, required - held, held != {}, pk) <==> Selected(db, user, o, required, pk)
  {
  }

  // ---------- when it is right ----------

  /** For a user without privileges the query computes the specified set for every content of the tables exactly when a
      codename is required and the call is not of the mixed kind. In particular it does for every call that requires
      a codename and does not accept global permissions. */
  lemma AgreesExactlyWhen(user: User, o: Options, codenames: set<string>)
    ensures (forall db, pk :: Selected(db, user, o, codenames, pk) <==> Allowed(db, user, o, codenames, pk))
            <==> codenames != {} && !Mixed(user, o, codenames)
    ensures !o.acceptGlobalPerms ==> !Mixed(user, o, codenames)
  {
    if codenames == {} {
      var grants := if o.anyPerm then [Grant(user.id, 0, "")] else [];
      var db := Database(grants, [], map[], user);
      assert o.anyPerm ==> "" in Codes(Rows(grants, {user.id}, {}), 0);
      assert !(Selected(db, user, o, codenames, 0) <==> Allowed(db, user, o, codenames, 0));
    } else if Mixed(user, o, codenames) {
      var asked := codenames - GlobalPart(user, o, codenames);
      var x :| x in asked;
      if asked - {x} == {} {
        SubsetSize(asked, {x});
      }
      var y :| y in asked - {x};
      var db := Database([], [Grant(0, 0, x)], map[user.id := {0}], user);
      assert Codes(Rows(db.groupGrants, {0}, {}), 0) == {x};
      assert Selected(db, user, o, codenames, 0);
      assert y !in PermsOn(db, user, o, 0);
      assert !Allowed(db, user, o, codenames, 0);
    }
  }

  // ---------- in terms of the rows ----------

  /** A row gives the user this permission on the object: one of the user's own or, if groups count, one of a group the
      user is in. */
  ghost predicate Holds(db: Database, user: User, o: Options, pk: int, code: string) {
    || Grant(user.id, pk, code) in db.userGrants
    || (o.useGroups && user.id in db.groupsOf
        && exists group :: group in db.groupsOf[user.id] && Grant(group, pk, code) in db.groupGrants)
  }

  lemma CodesByRows(grants: seq<Grant>, owners: set<nat>, pk: int, code: string)
    ensures code in Codes(Rows(grants, owners, {}), pk) <==>
            exists owner :: owner in owners && Grant(owner, pk, code) in grants
  {
    RowsMeaning(grants, owners, {});
    if code in Codes(Rows(grants, owners, {}), pk) {
      var g :| g in Rows(grants, owners, {}) && g.pk == pk && g.codename == code;
      assert g == Grant(g.owner, pk, code);
    }
    forall owner | owner in owners && Grant(owner, pk, code) in grants
      ensures code in Codes(Rows(grants, owners, {}), pk)
    {
      assert Grant(owner, pk, code) in Rows(grants, owners, {});
    }
  }

  lemma HeldByRows(db: Database, user: User, o: Options, pk: int, code: string)
    ensures code in PermsOn(db, user, o, pk) <==> Holds(db, user, o, pk, code)
  {
    CodesByRows(db.userGrants, {user.id}, pk, code);
    CodesByRows(db.groupGrants, Groups(db, user), pk, code);
  }

  /** If some of the required codenames are held globally, at least two are not, groups count and all are asked for,
      then a row of a group for one of those that are left is as good as rows of the user for all of them. */
  lemma MixedByRows(db: Database, user: User, o: Options, codenames: set<string>, pk: int, left: set<string>)
    requires o.acceptGlobalPerms && o.withSuperuser && o.useGroups && !o.anyPerm
    requires forall code :: code in left <==> code in codenames && code !in user.globalPerms
    requires left != codenames && |left| > 1
    ensures Selected(db, user, o, codenames, pk) <==>
            || (forall code | code in left :: Grant(user.id, pk, code) in db.userGrants)
            || (user.id in db.groupsOf && exists code, group :: code in left && group in db.groupsOf[user.id]
                                                                && Grant(group, pk, code) in db.groupGrants)
  {
    assert left == codenames - GlobalPart(user, o, codenames);
    forall code
      ensures code in Codes(Rows(db.userGrants, {user.id}, {}), pk) <==> Grant(user.id, pk, code) in db.userGrants
      ensures code in Codes(Rows(db.groupGrants, Groups(db, user), {}), pk) <==>
              exists group :: group in Groups(db, user) && Grant(group, pk, code) in db.groupGrants
    {
      CodesByRows(db.userGrants, {user.id}, pk, code);
      CodesByRows(db.groupGrants, Groups(db, user), pk, code);
    }
  }

  /** Where globally held permissions do not count, the query asks for rows for every required codename, or for one, and
      for any row at all if none is required. */
  lemma SelectedByRows(db: Database, user: User, o: Options, codenames: set<string>, pk: int)
    requires !(o.acceptGlobalPerms && o.withSuperuser) || codenames == {}
    ensures Selected(db, user, o, codenames, pk) <==>
            if codenames == {} then exists code :: Holds(db, user, o, pk, code)
            else if o.anyPerm then exists code :: code in codenames && Holds(db, user, o, pk, code)
            else forall code | code in codenames :: Holds(db, user, o, pk, code)
  {
    forall code ensures code in PermsOn(db, user, o, pk) <==> Holds(db, user, o, pk, code) {
      HeldByRows(db, user, o, pk, code);
    }
    if codenames == {} && PermsOn(db, user, o, pk) != {} {
      var code :| code in PermsOn(db, user, o, pk);
    }
  }

  lemma AnswerByRows(db: Database, user: User, o: Options, perms: seq<string>, pk: int)
    requires !(o.acceptGlobalPerms && o.withSuperuser)
    ensures Selected(db, user, o, CodenamesOf(perms), pk) <==>
            if perms == [] then exists code :: Holds(db, user, o, pk, code)
            else if o.anyPerm then exists i :: 0 <= i < |perms| && Holds(db, user, o, pk, CodenameOf(perms[i]))
            else forall i | 0 <= i < |perms| :: Holds(db, user, o, pk, CodenameOf(perms[i]))
  {
    SelectedByRows(db, user, o, CodenamesOf(perms), pk);
    assert perms != [] ==> CodenameOf(perms[0]) in CodenamesOf(perms);
    assert forall i | 0 <= i < |perms| :: CodenameOf(perms[i]) in CodenamesOf(perms);
  }

  /** The specification, with the permissions that are held globally where the options let these count. */
  lemma AllowedByRows(db: Database, user: User, o: Options, codenames: set<string>, pk: int)
    ensures Allowed(db, user, o, codenames, pk) <==>
            if o.anyPerm then
              exists code :: code in codenames && (Holds(db, user, o, pk, code)
                               || (o.acceptGlobalPerms && o.withSuperuser && code in user.globalPerms))
            else
              forall code | code in codenames ::
                Holds(db, user, o, pk, code) || (o.acceptGlobalPerms && o.withSuperuser && code in user.globalPerms)
  {
    forall code ensures code in PermsOn(db, user, o, pk) <==> Holds(db, user, o, pk, code) {
      HeldByRows(db, user, o, pk, code);
    }
  }

  /** Each selected object has a row of the user itself or, if groups count, of a group the user is in. */
  lemma SelectedHasRow(db: Database, user: User, o: Options, codenames: set<string>, pk: int)
    requires !(o.acceptGlobalPerms && o.withSuperuser) && Selected(db, user, o, codenames, pk)
    ensures (exists g :: g in db.userGrants && g.owner == user.id && g.pk == pk)
            || (o.useGroups && user.id in db.groupsOf
                && exists g :: g in db.groupGrants && g.owner in db.groupsOf[user.id] && g.pk == pk)
  {
    SelectedByRows(db, user, o, codenames, pk);
    var code :| Holds(db, user, o, pk, code) && (codenames == {} || code in codenames);
    if Grant(user.id, pk, code) !in db.userGrants {
      var group :| group in db.groupsOf[user.id] && Grant(group, pk, code) in db.groupGrants;
      assert Grant(group, pk, code).owner in db.groupsOf[user.id];
    } else {
      assert Grant(user.id, pk, code).owner == user.id;
    }
  }

  /** Rows of other users and of groups the user is not in make no difference, whatever the options are. */
  lemma OtherRowsDoNotMatter(db: Database, db': Database, user: User, o: Options, codenames: set<string>, pk: int)
    requires forall g: Grant | g.owner == user.id :: g in db.userGrants <==> g in db'.userGrants
    requires user.id in db.groupsOf && user.id in db'.groupsOf && db.groupsOf[user.id] == db'.groupsOf[user.id]
    requires forall g: Grant | g.owner in db.groupsOf[user.id] :: g in db.groupGrants <==> g in db'.groupGrants
    ensures Selected(db, user, o, codenames, pk) <==> Selected(db', user, o, codenames, pk)
  {
    SameCodes(db.userGrants, db'.userGrants, {user.id}, pk);
    SameCodes(db.groupGrants, db'.groupGrants, db.groupsOf[user.id], pk);
  }

  lemma SameCodes(a: seq<Grant>, b: seq<Grant>, owners: set<nat>, pk: int)
    requires forall g: Grant | g.owner in owners :: g in a <==> g in b
    ensures Codes(Rows(a, owners, {}), pk) == Codes(Rows(b, owners, {}), pk)
  {
    forall code ensures code in Codes(Rows(a, owners, {}), pk) <==> code in Codes(Rows(b, owners, {}), pk) {
      CodesByRows(a, owners, pk, code);
      CodesByRows(b, owners, pk, code);
      assert forall owner | owner in owners :: Grant(owner, pk, code).owner in owners;
    }
  }
}
