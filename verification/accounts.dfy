/**
 The password and group databases as the adapter reads them, and the user
 records it assembles from them: `info`, `list_groups` and `getent` of
 salt/modules/pw_user.py.
 */
module Accounts {
  import opened Wrappers
  import opened StringOrder

  /** One entry of the password database; the password field is opaque text. */
  datatype PasswdEntry = PasswdEntry(
    name: string, passwd: string, uid: int, gid: int, dir: string, shell: string)

  /** One entry of the group database: the group's name and its member names. */
  datatype GroupEntry = GroupEntry(name: string, members: seq<string>)

  /** Both databases, each in the order the system enumerates it. */
  datatype Db = Db(passwd: seq<PasswdEntry>, groups: seq<GroupEntry>)

  /** The record `info` returns. */
  datatype UserInfo = UserInfo(
    name: string, passwd: string, uid: int, gid: int, home: string, shell: string,
    groups: seq<string>)

  /** The lookup of an absent user fails, as `pwd.getpwnam` raises `KeyError`. */
  datatype LookupError = KeyError(name: string)

  /** `i` is the first position of the password database holding user `name`. */
  predicate FirstNamed(entries: seq<PasswdEntry>, name: string, i: int)
  {
    && 0 <= i < |entries|
    && entries[i].name == name
    && forall j :: 0 <= j < i ==> entries[j].name != name
  }

  predicate Absent(entries: seq<PasswdEntry>, name: string)
  {
    forall i :: 0 <= i < |entries| ==> entries[i].name != name
  }

  /** No user name occurs twice in the password database. */
  predicate UniqueNames(entries: seq<PasswdEntry>)
  {
    forall i, j :: 0 <= i < j < |entries| ==> entries[i].name != entries[j].name
  }

  /** The record `u` carries the fields of entry `e` unchanged. */
  predicate Describes(u: UserInfo, e: PasswdEntry)
  {
    && u.name == e.name
    && u.passwd == e.passwd
    && u.uid == e.uid
    && u.gid == e.gid
    && u.home == e.dir
    && u.shell == e.shell
  }

  /** The position `pwd.getpwnam` reads: the first entry named `name`, if any. */
  function FindUser(entries: seq<PasswdEntry>, name: string): (r: Option<nat>)
    ensures r.Some? ==> FirstNamed(entries, name, r.value)
    ensures r.None? <==> Absent(entries, name)
  {
    if |entries| == 0 then None
    else if entries[0].name == name then Some(0)
    else
      match FindUser(entries[1..], name)
      case None => None
      case Some(i) =>
        assert forall j :: 1 <= j <= i ==> entries[j] == entries[1..][j - 1];
        Some(i + 1)
  }

  /** The names of the groups whose member list contains `name`. */
  function MemberGroups(groups: seq<GroupEntry>, name: string): set<string>
  {
    set g | g in groups && name in g.members :: g.name
  }

  /** `list_groups`: the names of the groups listing `name` as a member, each once,
      in sorted order. The user's primary group is included only when it lists
      the user explicitly. */
  function ListGroups(groups: seq<GroupEntry>, name: string): (r: seq<string>)
    ensures StrictlySorted(r)
    ensures forall x :: x in r <==> x in MemberGroups(groups, name)
  {
    if |groups| == 0 then []
    else
      var front := groups[..|groups| - 1];
      var g := groups[|groups| - 1];
      assert groups == front + [g];
      var rest := ListGroups(front, name);
      if name in g.members then Insert(rest, g.name) else rest
  }

  /** The strictly sorted listing of the member groups is the only one: any strictly
      sorted sequence naming exactly those groups is what `list_groups` returns. */
  lemma ListGroupsCanonical(groups: seq<GroupEntry>, name: string, s: seq<string>)
    requires StrictlySorted(s)
    requires forall x :: x in s <==> x in MemberGroups(groups, name)
    ensures ListGroups(groups, name) == s
  {
    SortedUnique(ListGroups(groups, name), s);
  }

  /** `info`: the first password entry named `name`, its fields copied unchanged,
      with the groups listing the user; an absent user is a `KeyError`. */
  function Info(db: Db, name: string): (r: Result<UserInfo, LookupError>)
    ensures r.Err? <==> Absent(db.passwd, name)
    ensures r.Err? ==> r.error == KeyError(name)
    ensures r.Ok? ==> exists i :: FirstNamed(db.passwd, name, i) && Describes(r.value, db.passwd[i])
    ensures r.Ok? ==> r.value.name == name
    ensures r.Ok? ==> r.value.groups == ListGroups(db.groups, name)
  {
    match FindUser(db.passwd, name)
    case None => Err(KeyError(name))
    case Some(i) =>
      var e := db.passwd[i];
      Ok(UserInfo(e.name, e.passwd, e.uid, e.gid, e.dir, e.shell, ListGroups(db.groups, name)))
  }

  /** With unique user names, the record of the user at position `i` describes
      exactly that entry. */
  lemma InfoOfUniqueEntry(db: Db, i: int)
    requires UniqueNames(db.passwd)
    requires 0 <= i < |db.passwd|
    ensures Info(db, db.passwd[i].name).Ok?
    ensures Describes(Info(db, db.passwd[i].name).value, db.passwd[i])
  {
    var name := db.passwd[i].name;
    assert !Absent(db.passwd, name);
    var j := FindUser(db.passwd, name).value;
    assert FirstNamed(db.passwd, name, j);
    assert !(i < j);
    assert !(j < i);
  }

  /** `getent`: one `info` record per password entry, in enumeration order. A name
      that occurs twice yields the record of its first entry both times. */
  method GetEnt(db: Db) returns (r: seq<UserInfo>)
    ensures |r| == |db.passwd|
    ensures forall i :: 0 <= i < |r| ==> Info(db, db.passwd[i].name) == Ok(r[i])
    ensures forall i :: 0 <= i < |r| ==> r[i].name == db.passwd[i].name
    ensures UniqueNames(db.passwd) ==> forall i :: 0 <= i < |r| ==> Describes(r[i], db.passwd[i])
  {
    r := [];
    for k := 0 to |db.passwd|
      invariant |r| == k
      invariant forall i :: 0 <= i < k ==> Info(db, db.passwd[i].name) == Ok(r[i])
    {
      var info := Info(db, db.passwd[k].name);
      assert !Absent(db.passwd, db.passwd[k].name);
      r := r + [info.value];
    }
    if UniqueNames(db.passwd) {
      forall i | 0 <= i < |r|
        ensures Describes(r[i], db.passwd[i])
      {
        InfoOfUniqueEntry(db, i);
      }
    }
  }
}
