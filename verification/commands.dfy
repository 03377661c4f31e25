/**
 The `pw` command lines the adapter builds (salt/modules/pw_user.py), written
 the way the source concatenates them, and the pieces each line is assembled
 from. What a shell reads from the lines, and the reading of the `pw useradd`
 words back into options, are in ShellWords.

 Python's truthiness decides which options appear: `None`, `0`, `""`, `False`
 and the empty list are false; everything else is true.
 */
module Commands {
  import opened Wrappers
  import opened Text
  import opened Decimal
  import opened Paths

  /** The `groups` argument: one comma-separated string, or a list of names. */
  datatype GroupSpec = Csv(text: string) | Names(names: seq<string>)

  /** The `home` argument of `add`: `True` / `False`, or a path. */
  datatype HomeArg = HomeFlag(create: bool) | HomeDir(path: string)

  /** The arguments of `add`; `system` is accepted and never used. */
  datatype AddRequest = AddRequest(
    name: string, uid: Option<int>, gid: Option<int>, groups: Option<GroupSpec>,
    home: HomeArg, shell: Option<string>, system: bool)

  predicate IntTruthy(x: Option<int>)
  {
    x.Some? && x.value != 0
  }

  predicate StrTruthy(x: Option<string>)
  {
    x.Some? && x.value != ""
  }

  predicate HomeTruthy(h: HomeArg)
  {
    match h
    case HomeFlag(b) => b
    case HomeDir(p) => p != ""
  }

  /** The group list the source works with: a string is split on commas, a list
      is taken as it is. Re-joined with commas, a string's list is the string. */
  function GroupList(g: GroupSpec): (r: seq<string>)
    ensures g.Csv? ==> |r| > 0 && Join(r, ",") == g.text
    ensures g.Csv? ==> Separable(r, ',')
  {
    match g
    case Csv(s) =>
      JoinSplit(s, ',');
      Split(s, ',')
    case Names(xs) => xs
  }

  /** `'{flag} {value} '` when the option is given, nothing otherwise. */
  function Flag(given: bool, flag: string, value: string): string
  {
    if given then flag + " " + value + " " else ""
  }

  /** The home-directory options of `add`. */
  function HomeOptions(home: HomeArg): string
  {
    if !HomeTruthy(home) then ""
    else if home == HomeFlag(true) then "-m "
    else "-m -b " + Dirname(home.path) + " "
  }

  function AddGroups(req: AddRequest): seq<string>
  {
    if req.groups.Some? then GroupList(req.groups.value) else []
  }

  /** The `pw useradd` line of `add`. */
  function AddCommand(req: AddRequest): string
  {
    var groups := AddGroups(req);
    "pw useradd "
    + Flag(StrTruthy(req.shell), "-s", if req.shell.Some? then req.shell.value else "")
    + Flag(IntTruthy(req.uid), "-u", if req.uid.Some? then FormatInt(req.uid.value) else "")
    + Flag(IntTruthy(req.gid), "-g", if req.gid.Some? then FormatInt(req.gid.value) else "")
    + Flag(groups != [], "-G", Join(groups, ","))
    + HomeOptions(req.home)
    + "-n " + req.name
  }

  /** The `pw userdel` line of `delete`; its `force` argument takes no part. */
  function DeleteCommand(name: string, remove: bool): string
  {
    "pw userdel " + (if remove then "-r " else "") + name
  }

  /** `pw usermod <flag> <value> <name>`, the line of `chuid`, `chgid` and `chshell`. */
  function UsermodCommand(flag: string, value: string, name: string): string
  {
    "pw usermod " + flag + " " + value + " " + name
  }

  function ChUidCommand(uid: int, name: string): string
  {
    UsermodCommand("-u", FormatInt(uid), name)
  }

  function ChGidCommand(gid: int, name: string): string
  {
    UsermodCommand("-g", FormatInt(gid), name)
  }

  function ChShellCommand(shell: string, name: string): string
  {
    UsermodCommand("-s", shell, name)
  }

  /** With `persist` the line holds two spaces before `-m`. */
  function ChHomeCommand(home: string, persist: bool, name: string): string
  {
    "pw usermod -d " + home + " " + (if persist then " -m " else "") + name
  }

  /** Without `append` the line ends in a space. */
  function ChGroupsCommand(groups: seq<string>, name: string, append: bool): string
  {
    "pw usermod -G " + Join(groups, ",") + " -n " + name + " " + (if append then "-a" else "")
  }

  // ----- The pieces of each line -----

  /** An option and its value, when there is a value. */
  function OptionWords(flag: string, v: Option<string>): seq<string>
  {
    if v.Some? then [flag, v.value] else []
  }

  /** `-m`, with `-b <dir>` when a base directory is given, when a home is created. */
  function HomeLayout(createHome: bool, baseDir: Option<string>): seq<string>
  {
    if createHome then ["-m"] + OptionWords("-b", baseDir) else []
  }

  /** The option `flag value` when `given` holds. */
  function Pair(given: bool, flag: string, value: string): seq<string>
  {
    OptionWords(flag, if given then Some(value) else None)
  }

  /** The home-directory pieces of `add`. */
  function HomeWords(home: HomeArg): seq<string>
  {
    HomeLayout(HomeTruthy(home),
               if HomeTruthy(home) && home.HomeDir? then Some(Dirname(home.path)) else None)
  }

  /** The pieces of the `pw useradd` line, in the order the source appends them. */
  function AddPieces(req: AddRequest): seq<string>
  {
    var groups := AddGroups(req);
    ["pw", "useradd"]
    + Pair(StrTruthy(req.shell), "-s", if req.shell.Some? then req.shell.value else "")
    + Pair(IntTruthy(req.uid), "-u", if req.uid.Some? then FormatInt(req.uid.value) else "")
    + Pair(IntTruthy(req.gid), "-g", if req.gid.Some? then FormatInt(req.gid.value) else "")
    + Pair(groups != [], "-G", Join(groups, ","))
    + HomeWords(req.home)
    + ["-n", req.name]
  }

  lemma FlagIsSpaced(given: bool, flag: string, value: string)
    ensures Flag(given, flag, value) == Spaced(Pair(given, flag, value))
  {
    if given {
      assert [flag, value][1..] == [value];
      assert [value][1..] == [];
      calc {
        Spaced([flag, value]);
        flag + " " + Spaced([value]);
        flag + " " + (value + " " + "");
        flag + " " + value + " ";
      }
    }
  }

  lemma HomeOptionsSpaced(home: HomeArg)
    ensures HomeOptions(home) == Spaced(HomeWords(home))
  {
    if !HomeTruthy(home) {
    } else if home == HomeFlag(true) {
      assert ["-m"][1..] == [];
    } else {
      var d := Dirname(home.path);
      assert ["-m", "-b", d][1..] == ["-b", d];
      assert ["-b", d][1..] == [d];
      assert [d][1..] == [];
      calc {
        Spaced(["-m", "-b", d]);
        "-m" + " " + Spaced(["-b", d]);
        "-m" + " " + ("-b" + " " + Spaced([d]));
        "-m" + " " + ("-b" + " " + (d + " " + ""));
        "-m -b " + d + " ";
      }
    }
  }

  lemma AddLiterals()
    ensures Spaced(["pw", "useradd"]) == "pw useradd "
    ensures "-n " == "-n" + " "
  {
    assert ["pw", "useradd"][1..] == ["useradd"] && ["useradd"][1..] == [];
    calc {
      Spaced(["pw", "useradd"]);
      "pw" + " " + ("useradd" + " " + "");
      "pw useradd ";
    }
  }

  /** The `pw useradd` line is its pieces joined by single spaces. */
  lemma AddCommandJoins(req: AddRequest)
    ensures AddCommand(req) == Join(AddPieces(req), " ")
  {
    var groups := AddGroups(req);
    var sh := if req.shell.Some? then req.shell.value else "";
    var ui := if req.uid.Some? then FormatInt(req.uid.value) else "";
    var gi := if req.gid.Some? then FormatInt(req.gid.value) else "";
    var gl := Join(groups, ",");
    var s := Pair(StrTruthy(req.shell), "-s", sh);
    var u := Pair(IntTruthy(req.uid), "-u", ui);
    var g := Pair(IntTruthy(req.gid), "-g", gi);
    var gs := Pair(groups != [], "-G", gl);
    var h := HomeWords(req.home);
    AddLiterals();
    FlagIsSpaced(StrTruthy(req.shell), "-s", sh);
    FlagIsSpaced(IntTruthy(req.uid), "-u", ui);
    FlagIsSpaced(IntTruthy(req.gid), "-g", gi);
    FlagIsSpaced(groups != [], "-G", gl);
    HomeOptionsSpaced(req.home);
    SpacedLine(["pw", "useradd"], s, u, g, gs, h, "-n", req.name);
  }

  /** A non-empty list of comma-free group names and its comma-joined string make
      the same `pw useradd` line. */
  lemma AddCsvIsList(req: AddRequest, gs: seq<string>)
    requires |gs| > 0 && Separable(gs, ',')
    requires req.groups == Some(Names(gs))
    ensures AddCommand(req.(groups := Some(Csv(Join(gs, ","))))) == AddCommand(req)
  {
    SplitJoin(gs, ',');
  }
}
