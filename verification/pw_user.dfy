/**
 The operations of salt/modules/pw_user.py. Running a command is not modelled:
 `add` and `delete` take the exit code the command returned, and the
 compare-mutate-verify operations take the databases as they are before the
 call (`pre`) and as they are read back after it (`post`), which may be
 anything at all.
 */
module PwUser {
  import opened Wrappers
  import opened Text
  import opened Accounts
  import opened Commands
  import opened ShellWords

  /** A command line handed to the shell and the verdict reported for it. */
  datatype Invocation = Invocation(command: string, ok: bool)

  /** One compare-mutate-verify call: the command issued, if any, and the verdict. */
  datatype Step = Step(command: Option<string>, ok: bool)

  /** `add`: the verdict is the exit code alone, and with plain values the line
      requests exactly the options of RequestedCall. */
  function Add(req: AddRequest, exitCode: int): (r: Invocation)
    ensures r.ok <==> exitCode == 0
    ensures AddArgsArePlain(req) ==> ParseUserAdd(Words(r.command)) == Some(RequestedCall(req))
  {
    var cmd := AddCommand(req);
    assert AddArgsArePlain(req) ==> ParseUserAdd(Words(cmd)) == Some(RequestedCall(req)) by {
      if AddArgsArePlain(req) { AddReadsBack(req); }
    }
    Invocation(cmd, exitCode == 0)
  }

  /** `delete`: the verdict is the exit code alone; the line is `pw userdel [-r]
      name`, whatever `force` is. */
  function Delete(name: string, remove: bool, force: bool, exitCode: int): (r: Invocation)
    ensures r.ok <==> exitCode == 0
    ensures Word(name) ==>
      Words(r.command) == ["pw", "userdel"] + (if remove then ["-r"] else []) + [name]
  {
    var cmd := DeleteCommand(name, remove);
    assert Word(name) ==>
      Words(cmd) == ["pw", "userdel"] + (if remove then ["-r"] else []) + [name] by {
      if Word(name) { DeleteWords(name, remove); }
    }
    Invocation(cmd, exitCode == 0)
  }

  /** The verify rule: once the value before differs from the target, the call
      succeeded exactly when the value after is the target. */
  function Confirmed<T(==)>(before: T, target: T, after: T): (ok: bool)
    ensures before != target ==> (ok <==> after == target)
    ensures after == before ==> !ok || before == target
  {
    if after != before then after == target else false
  }

  /** Compare-mutate-verify on one attribute of the user's record: an absent user
      is an error; a value already at the target succeeds with no command;
      otherwise the command is issued and the verdict is whether the record read
      back holds the target. */
  function ChangeAttribute<T(==)>(pre: Db, post: Db, name: string, attr: UserInfo -> T,
                                  target: T, cmd: string): (r: Result<Step, LookupError>)
    ensures Absent(pre.passwd, name) ==> r == Err(KeyError(name))
    ensures !Absent(pre.passwd, name) && attr(Info(pre, name).value) == target ==>
      r == Ok(Step(None, true))
    ensures !Absent(pre.passwd, name) && attr(Info(pre, name).value) != target ==>
      if Absent(post.passwd, name) then r == Err(KeyError(name))
      else r == Ok(Step(Some(cmd), attr(Info(post, name).value) == target))
  {
    match Info(pre, name)
    case Err(e) => Err(e)
    case Ok(before) =>
      if target == attr(before) then Ok(Step(None, true))
      else
        match Info(post, name)
        case Err(e) => Err(e)
        case Ok(after) => Ok(Step(Some(cmd), Confirmed(attr(before), target, attr(after))))
  }

  function ChUid(pre: Db, post: Db, name: string, uid: int): (r: Result<Step, LookupError>)
    ensures Absent(pre.passwd, name) ==> r == Err(KeyError(name))
    ensures !Absent(pre.passwd, name) && Info(pre, name).value.uid == uid ==>
      r == Ok(Step(None, true))
    ensures !Absent(pre.passwd, name) && Info(pre, name).value.uid != uid && !Absent(post.passwd, name) ==>
      r == Ok(Step(Some(ChUidCommand(uid, name)), Info(post, name).value.uid == uid))
    ensures !Absent(pre.passwd, name) && Info(pre, name).value.uid != uid && Absent(post.passwd, name) ==>
      r == Err(KeyError(name))
  {
    ChangeAttribute(pre, post, name, (u: UserInfo) => u.uid, uid, ChUidCommand(uid, name))
  }

  function ChGid(pre: Db, post: Db, name: string, gid: int): (r: Result<Step, LookupError>)
    ensures Absent(pre.passwd, name) ==> r == Err(KeyError(name))
    ensures !Absent(pre.passwd, name) && Info(pre, name).value.gid == gid ==>
      r == Ok(Step(None, true))
    ensures !Absent(pre.passwd, name) && Info(pre, name).value.gid != gid && !Absent(post.passwd, name) ==>
      r == Ok(Step(Some(ChGidCommand(gid, name)), Info(post, name).value.gid == gid))
    ensures !Absent(pre.passwd, name) && Info(pre, name).value.gid != gid && Absent(post.passwd, name) ==>
      r == Err(KeyError(name))
  {
    ChangeAttribute(pre, post, name, (u: UserInfo) => u.gid, gid, ChGidCommand(gid, name))
  }

  function ChShell(pre: Db, post: Db, name: string, shell: string): (r: Result<Step, LookupError>)
    ensures Absent(pre.passwd, name) ==> r == Err(KeyError(name))
    ensures !Absent(pre.passwd, name) && Info(pre, name).value.shell == shell ==>
      r == Ok(Step(None, true))
    ensures !Absent(pre.passwd, name) && Info(pre, name).value.shell != shell && !Absent(post.passwd, name) ==>
      r == Ok(Step(Some(ChShellCommand(shell, name)), Info(post, name).value.shell == shell))
    ensures !Absent(pre.passwd, name) && Info(pre, name).value.shell != shell && Absent(post.passwd, name) ==>
      r == Err(KeyError(name))
  {
    ChangeAttribute(pre, post, name, (u: UserInfo) => u.shell, shell, ChShellCommand(shell, name))
  }

  function ChHome(pre: Db, post: Db, name: string, home: string, persist: bool): (r: Result<Step, LookupError>)
    ensures Absent(pre.passwd, name) ==> r == Err(KeyError(name))
    ensures !Absent(pre.passwd, name) && Info(pre, name).value.home == home ==>
      r == Ok(Step(None, true))
    ensures !Absent(pre.passwd, name) && Info(pre, name).value.home != home && !Absent(post.passwd, name) ==>
      r == Ok(Step(Some(ChHomeCommand(home, persist, name)), Info(post, name).value.home == home))
    ensures !Absent(pre.passwd, name) && Info(pre, name).value.home != home && Absent(post.passwd, name) ==>
      r == Err(KeyError(name))
  {
    ChangeAttribute(pre, post, name, (u: UserInfo) => u.home, home,
                    ChHomeCommand(home, persist, name))
  }

  /** When the database reads back unchanged, a call that had something to change
      reports failure, whatever the command's exit status was. */
  lemma UnchangedDatabaseFails<T>(db: Db, name: string, attr: UserInfo -> T, target: T, cmd: string)
    requires !Absent(db.passwd, name)
    requires attr(Info(db, name).value) != target
    ensures ChangeAttribute(db, db, name, attr, target, cmd) == Ok(Step(Some(cmd), false))
  {
  }

  /** A reported success means the record last read holds the target: the one read
      before the call when no command was issued, the one read after it otherwise. */
  lemma SuccessMeansTarget<T>(pre: Db, post: Db, name: string, attr: UserInfo -> T,
                                  target: T, cmd: string)
    requires ChangeAttribute(pre, post, name, attr, target, cmd).Ok?
    requires ChangeAttribute(pre, post, name, attr, target, cmd).value.ok
    ensures var step := ChangeAttribute(pre, post, name, attr, target, cmd).value;
      if step.command.None? then Info(pre, name).Ok? && attr(Info(pre, name).value) == target
      else Info(post, name).Ok? && attr(Info(post, name).value) == target
  {
  }

  // ----- chgroups -----

  function Elements(xs: seq<string>): set<string>
  {
    set x | x in xs
  }

  /** `set(list_groups(name))` is the set of groups listing the user. */
  lemma ListedGroups(groups: seq<GroupEntry>, name: string)
    ensures Elements(ListGroups(groups, name)) == MemberGroups(groups, name)
  {
  }

  /** `len(before - after) == 0` says that nothing of `before` is missing from `after`. */
  lemma NothingLost(before: set<string>, after: set<string>)
    ensures |before - after| == 0 <==> before <= after
  {
    if before <= after {
      assert before - after == {};
    } else {
      var x :| x in before && x !in after;
      assert x in before - after;
    }
  }

  /** `chgroups` as written: no command when the user's groups already are the
      requested set; otherwise the verdict is only that no group the user had
      before was lost. Whether the requested groups were added is not looked at. */
  function ChGroups(pre: Db, post: Db, name: string, groups: GroupSpec, append: bool): (r: Step)
    ensures MemberGroups(pre.groups, name) == Elements(GroupList(groups)) ==> r == Step(None, true)
    ensures MemberGroups(pre.groups, name) != Elements(GroupList(groups)) ==>
      && r.command == Some(ChGroupsCommand(GroupList(groups), name, append))
      && (r.ok <==> MemberGroups(pre.groups, name) <= MemberGroups(post.groups, name))
  {
    var gs := GroupList(groups);
    var ugrps := Elements(ListGroups(pre.groups, name));
    if ugrps == Elements(gs) then Step(None, true)
    else
      var agrps := Elements(ListGroups(post.groups, name));
      ListedGroups(pre.groups, name);
      ListedGroups(post.groups, name);
      NothingLost(ugrps, agrps);
      Step(Some(ChGroupsCommand(gs, name, append)), |ugrps - agrps| == 0)
  }

  /** As written, a group database that reads back unchanged counts as success,
      whatever happened to the password database. */
  lemma ChGroupsUnchangedSucceeds(pre: Db, post: Db, name: string, groups: GroupSpec, append: bool)
    requires post.groups == pre.groups
    ensures ChGroups(pre, post, name, groups, append).ok
  {
  }

  /** A comma-separated string and the list of its pieces are the same request. */
  lemma ChGroupsCsvIsList(pre: Db, post: Db, name: string, s: string, append: bool)
    ensures ChGroups(pre, post, name, Csv(s), append)
         == ChGroups(pre, post, name, Names(Split(s, ',')), append)
  {
  }

  /** A non-empty list of comma-free names and its comma-joined string are the same
      request. */
  lemma ChGroupsListIsCsv(pre: Db, post: Db, name: string, gs: seq<string>, append: bool)
    requires |gs| > 0 && Separable(gs, ',')
    ensures ChGroups(pre, post, name, Names(gs), append)
         == ChGroups(pre, post, name, Csv(Join(gs, ",")), append)
  {
    SplitJoin(gs, ',');
  }

  /** The verdict `chgroups` evidently means to give. When appending, every group
      held before and every requested group is present afterwards; when replacing,
      the groups afterwards are exactly the requested ones. */
  function ChGroupsIntended(pre: Db, post: Db, name: string, groups: GroupSpec, append: bool): (r: Step)
    ensures MemberGroups(pre.groups, name) == Elements(GroupList(groups)) ==> r == Step(None, true)
    ensures MemberGroups(pre.groups, name) != Elements(GroupList(groups)) ==>
      && r.command == Some(ChGroupsCommand(GroupList(groups), name, append))
      && (r.ok <==>
            if append then MemberGroups(pre.groups, name) + Elements(GroupList(groups))
                           <= MemberGroups(post.groups, name)
            else MemberGroups(post.groups, name) == Elements(GroupList(groups)))
  {
    var gs := GroupList(groups);
    var ugrps := Elements(ListGroups(pre.groups, name));
    if ugrps == Elements(gs) then Step(None, true)
    else
      var agrps := Elements(ListGroups(post.groups, name));
      ListedGroups(pre.groups, name);
      ListedGroups(post.groups, name);
      var ok := if append then ugrps + Elements(gs) <= agrps else agrps == Elements(gs);
      Step(Some(ChGroupsCommand(gs, name, append)), ok)
  }

  /** When appending, the two verdicts differ only in whether the requested groups
      are looked at: the intended verdict is the source's verdict plus the check
      that every requested group is present afterwards. */
  lemma ChGroupsAppendRefines(pre: Db, post: Db, name: string, groups: GroupSpec)
    ensures ChGroupsIntended(pre, post, name, groups, true).ok
        <==> && ChGroups(pre, post, name, groups, true).ok
             && (MemberGroups(pre.groups, name) == Elements(GroupList(groups))
                 || Elements(GroupList(groups)) <= MemberGroups(post.groups, name))
  {
  }

  /** As written, a replacement that `pw` carries out exactly is reported as a
      failure whenever it drops a group the user held before; the intended verdict
      reports success. */
  lemma ChGroupsReplaceDroppingGroupFails(pre: Db, post: Db, name: string, groups: GroupSpec)
    requires MemberGroups(post.groups, name) == Elements(GroupList(groups))
    requires !(MemberGroups(pre.groups, name) <= Elements(GroupList(groups)))
    ensures !ChGroups(pre, post, name, groups, false).ok
    ensures ChGroupsIntended(pre, post, name, groups, false).ok
  {
  }

  /** A user in `wheel` asks to be in `ops` only; `pw` does exactly that. */
  const ReplacePre := Db([], [GroupEntry("wheel", ["alice"]), GroupEntry("ops", [])])
  const ReplacePost := Db([], [GroupEntry("wheel", []), GroupEntry("ops", ["alice"])])

  /** As written, that correct replacement is reported as a failure, since `wheel`
      is gone afterwards; the intended verdict reports success. This is
      `ChGroupsReplaceDroppingGroupFails` on one input. */
  lemma ChGroupsReplaceReportedAsFailure()
    ensures MemberGroups(ReplacePost.groups, "alice") == Elements(GroupList(Csv("ops")))
    ensures !ChGroups(ReplacePre, ReplacePost, "alice", Csv("ops"), false).ok
    ensures ChGroupsIntended(ReplacePre, ReplacePost, "alice", Csv("ops"), false).ok
  {
    var ops := GroupList(Csv("ops"));
    assert ops == ["ops"];
    assert Elements(ops) == {"ops"};
    assert GroupEntry("wheel", ["alice"]) in ReplacePre.groups;
    assert "wheel" in MemberGroups(ReplacePre.groups, "alice");
    assert MemberGroups(ReplacePost.groups, "alice") == {"ops"};
    ChGroupsReplaceDroppingGroupFails(ReplacePre, ReplacePost, "alice", Csv("ops"));
  }

  /** Appending `ops` for the same user and losing `wheel` on the way is a failure
      under both verdicts: the intended one still requires the old groups. */
  lemma ChGroupsAppendLosingGroupFails()
    ensures !ChGroups(ReplacePre, ReplacePost, "alice", Csv("ops"), true).ok
    ensures !ChGroupsIntended(ReplacePre, ReplacePost, "alice", Csv("ops"), true).ok
  {
    var ops := GroupList(Csv("ops"));
    assert ops == ["ops"];
    assert Elements(ops) == {"ops"};
    assert GroupEntry("wheel", ["alice"]) in ReplacePre.groups;
    assert "wheel" in MemberGroups(ReplacePre.groups, "alice");
    assert MemberGroups(ReplacePost.groups, "alice") == {"ops"};
    ChGroupsReplaceDroppingGroupFails(ReplacePre, ReplacePost, "alice", Csv("ops"));
  }
}
