/**
 What a shell reads from each `pw` line the adapter builds, when every value in
 it is a plain word: the words of each line, and for `pw useradd` the options
 those words request, read back by a parser of the `pw useradd` word list.
 */
module ShellWords {
  import opened Wrappers
  import opened Text
  import opened Decimal
  import opened Paths
  import opened Commands

  // ----- add -----

  /** Every value `add` writes into its line is a plain word. */
  predicate AddArgsArePlain(req: AddRequest)
  {
    && (StrTruthy(req.shell) ==> Word(req.shell.value))
    && (AddGroups(req) != [] ==> Word(Join(AddGroups(req), ",")))
    && (HomeTruthy(req.home) && req.home.HomeDir? ==> Word(Dirname(req.home.path)))
    && Word(req.name)
  }

  lemma AllWordsAppend(a: seq<string>, b: seq<string>)
    requires AllWords(a) && AllWords(b)
    ensures AllWords(a + b)
  {
  }

  lemma AllWordsSeven(a: seq<string>, b: seq<string>, c: seq<string>, d: seq<string>,
                      e: seq<string>, f: seq<string>, g: seq<string>)
    requires AllWords(a) && AllWords(b) && AllWords(c) && AllWords(d)
    requires AllWords(e) && AllWords(f) && AllWords(g)
    ensures AllWords(a + b + c + d + e + f + g)
  {
    AllWordsAppend(a, b);
    AllWordsAppend(a + b, c);
    AllWordsAppend(a + b + c, d);
    AllWordsAppend(a + b + c + d, e);
    AllWordsAppend(a + b + c + d + e, f);
    AllWordsAppend(a + b + c + d + e + f, g);
  }

  lemma FormatIntIsWord(n: int)
    ensures Word(FormatInt(n))
  {
  }

  /** The option letters and subcommands of every line are plain words. */
  lemma FixedWords()
    ensures Word("pw") && Word("useradd") && Word("userdel") && Word("usermod")
    ensures Word("-s") && Word("-u") && Word("-g") && Word("-G") && Word("-m")
    ensures Word("-b") && Word("-n") && Word("-r") && Word("-d") && Word("-a")
  {
  }

  lemma PairWords(given: bool, flag: string, value: string)
    requires Word(flag) && (given ==> Word(value))
    ensures AllWords(Pair(given, flag, value))
  {
  }

  lemma HomeWordsArePlain(home: HomeArg)
    requires HomeTruthy(home) && home.HomeDir? ==> Word(Dirname(home.path))
    ensures AllWords(HomeWords(home))
  {
    FixedWords();
  }

  /** The pieces of a `pw useradd` line, with each value given apart from the
      request it comes from. */
  lemma PiecesAreWords(shellGiven: bool, sh: string, uidGiven: bool, ui: string,
                       gidGiven: bool, gi: string, groupsGiven: bool, gl: string,
                       h: seq<string>, name: string)
    requires shellGiven ==> Word(sh)
    requires uidGiven ==> Word(ui)
    requires gidGiven ==> Word(gi)
    requires groupsGiven ==> Word(gl)
    requires AllWords(h) && Word(name)
    ensures AllWords(["pw", "useradd"] + Pair(shellGiven, "-s", sh) + Pair(uidGiven, "-u", ui)
                     + Pair(gidGiven, "-g", gi) + Pair(groupsGiven, "-G", gl) + h + ["-n", name])
  {
    FixedWords();
    PairWords(shellGiven, "-s", sh);
    PairWords(uidGiven, "-u", ui);
    PairWords(gidGiven, "-g", gi);
    PairWords(groupsGiven, "-G", gl);
    assert AllWords(["pw", "useradd"]) && AllWords(["-n", name]);
    AllWordsSeven(["pw", "useradd"], Pair(shellGiven, "-s", sh), Pair(uidGiven, "-u", ui),
                  Pair(gidGiven, "-g", gi), Pair(groupsGiven, "-G", gl), h, ["-n", name]);
  }

  lemma AddPiecesAreWords(req: AddRequest)
    requires AddArgsArePlain(req)
    ensures AllWords(AddPieces(req))
  {
    var groups := AddGroups(req);
    if IntTruthy(req.uid) { FormatIntIsWord(req.uid.value); }
    if IntTruthy(req.gid) { FormatIntIsWord(req.gid.value); }
    HomeWordsArePlain(req.home);
    PiecesAreWords(StrTruthy(req.shell), if req.shell.Some? then req.shell.value else "",
                   IntTruthy(req.uid), if req.uid.Some? then FormatInt(req.uid.value) else "",
                   IntTruthy(req.gid), if req.gid.Some? then FormatInt(req.gid.value) else "",
                   groups != [], Join(groups, ","), HomeWords(req.home), req.name);
  }

  /** With plain values, the shell reads the `pw useradd` line as its pieces. */
  lemma AddWords(req: AddRequest)
    requires AddArgsArePlain(req)
    ensures Words(AddCommand(req)) == AddPieces(req)
  {
    AddCommandJoins(req);
    AddPiecesAreWords(req);
    WordsOfPlainLine(AddPieces(req));
  }

  /** The options a `pw useradd` word list requests. */
  datatype UserAddCall = UserAddCall(
    shell: Option<string>, uid: Option<string>, gid: Option<string>,
    groups: Option<string>, createHome: bool, baseDir: Option<string>, name: string)

  /** Reads `flag value` off the front of `w` when it is there. */
  function TakeOption(w: seq<string>, flag: string): (Option<string>, seq<string>)
  {
    if |w| >= 2 && w[0] == flag then (Some(w[1]), w[2..]) else (None, w)
  }

  /** Reads the home-directory options and the final `-n name` of a `pw useradd`
      word list: whether a home is created, its base directory, the user name. */
  function ParseHomeAndName(w: seq<string>): Option<(bool, Option<string>, string)>
  {
    var createHome := |w| > 0 && w[0] == "-m";
    var rest := if createHome then w[1..] else w;
    var (baseDir, tail) := if createHome then TakeOption(rest, "-b") else (None, rest);
    if |tail| == 2 && tail[0] == "-n" then Some((createHome, baseDir, tail[1])) else None
  }

  /** Reads a `pw useradd` word list whose options come in the order `-s -u -g -G
      -m [-b] -n`, each at most once, `-n name` last. */
  function ParseUserAdd(w: seq<string>): Option<UserAddCall>
  {
    if |w| < 2 || w[0] != "pw" || w[1] != "useradd" then None
    else
      var (shell, w1) := TakeOption(w[2..], "-s");
      var (uid, w2) := TakeOption(w1, "-u");
      var (gid, w3) := TakeOption(w2, "-g");
      var (groups, w4) := TakeOption(w3, "-G");
      match ParseHomeAndName(w4)
      case None => None
      case Some((createHome, baseDir, name)) =>
        Some(UserAddCall(shell, uid, gid, groups, createHome, baseDir, name))
  }

  /** The word list that requests `c`, options in the fixed order. */
  function Layout(c: UserAddCall): seq<string>
  {
    ["pw", "useradd"]
    + OptionWords("-s", c.shell) + OptionWords("-u", c.uid) + OptionWords("-g", c.gid)
    + OptionWords("-G", c.groups) + HomeLayout(c.createHome, c.baseDir) + ["-n", c.name]
  }

  /** A base directory is only ever requested along with a new home directory. */
  predicate Consistent(c: UserAddCall)
  {
    !c.createHome ==> c.baseDir.None?
  }

  lemma TakeOptionWords(flag: string, v: Option<string>, rest: seq<string>)
    requires |rest| > 0 && rest[0] != flag
    ensures TakeOption(OptionWords(flag, v) + rest, flag) == (v, rest)
  {
    if v.Some? {
      assert (OptionWords(flag, v) + rest)[2..] == rest;
    } else {
      assert OptionWords(flag, v) + rest == rest;
    }
  }

  lemma ParseHomeTail(createHome: bool, baseDir: Option<string>, name: string)
    requires !createHome ==> baseDir.None?
    ensures ParseHomeAndName(HomeLayout(createHome, baseDir) + ["-n", name])
         == Some((createHome, baseDir, name))
  {
    var w := HomeLayout(createHome, baseDir) + ["-n", name];
    if createHome {
      assert w[0] == "-m";
      assert w[1..] == OptionWords("-b", baseDir) + ["-n", name];
      TakeOptionWords("-b", baseDir, ["-n", name]);
    } else {
      assert w == ["-n", name];
    }
  }

  /** Reading back the word list of any consistent request gives that request. */
  lemma ParseLayout(c: UserAddCall)
    requires Consistent(c)
    ensures ParseUserAdd(Layout(c)) == Some(c)
  {
    var r4 := HomeLayout(c.createHome, c.baseDir) + ["-n", c.name];
    var r3 := OptionWords("-G", c.groups) + r4;
    var r2 := OptionWords("-g", c.gid) + r3;
    var r1 := OptionWords("-u", c.uid) + r2;
    var w := Layout(c);
    Regroup(["pw", "useradd"], OptionWords("-s", c.shell), OptionWords("-u", c.uid),
      OptionWords("-g", c.gid), OptionWords("-G", c.groups),
      HomeLayout(c.createHome, c.baseDir), ["-n", c.name]);
    assert w[2..] == OptionWords("-s", c.shell) + r1;
    assert r4[0] == "-m" || r4[0] == "-n";
    assert r3[0] == "-G" || r3[0] == r4[0];
    assert r2[0] == "-g" || r2[0] == r3[0];
    assert r1[0] == "-u" || r1[0] == r2[0];
    TakeOptionWords("-s", c.shell, r1);
    TakeOptionWords("-u", c.uid, r2);
    TakeOptionWords("-g", c.gid, r3);
    TakeOptionWords("-G", c.groups, r4);
    ParseHomeTail(c.createHome, c.baseDir, c.name);
  }

  /** The options `add` requests: each optional one exactly when its argument is
      true in Python's sense (so `uid=0`, `gid=0`, `shell=""`, `home=False` and an
      empty group list request nothing), the group list comma-joined, a base
      directory only for a home given as a path. */
  function RequestedCall(req: AddRequest): (c: UserAddCall)
    ensures Consistent(c)
  {
    var groups := AddGroups(req);
    UserAddCall(
      if StrTruthy(req.shell) then req.shell else None,
      if IntTruthy(req.uid) then Some(FormatInt(req.uid.value)) else None,
      if IntTruthy(req.gid) then Some(FormatInt(req.gid.value)) else None,
      if groups != [] then Some(Join(groups, ",")) else None,
      HomeTruthy(req.home),
      if HomeTruthy(req.home) && req.home.HomeDir? then Some(Dirname(req.home.path)) else None,
      req.name)
  }

  lemma AddPiecesLayout(req: AddRequest)
    ensures AddPieces(req) == Layout(RequestedCall(req))
  {
    var c := RequestedCall(req);
    assert HomeWords(req.home) == HomeLayout(c.createHome, c.baseDir);
  }

  /** Read back, the `pw useradd` line of `add` requests exactly the options of
      RequestedCall, in the source's fixed order. */
  lemma AddReadsBack(req: AddRequest)
    requires AddArgsArePlain(req)
    ensures ParseUserAdd(Words(AddCommand(req))) == Some(RequestedCall(req))
  {
    AddWords(req);
    AddPiecesLayout(req);
    ParseLayout(RequestedCall(req));
  }

  /** The `-u` and `-g` words of `add` read back as the numbers asked for. */
  lemma AddIdsReadBack(req: AddRequest)
    requires AddArgsArePlain(req)
    ensures ParseUserAdd(Words(AddCommand(req))).Some?
    ensures var call := ParseUserAdd(Words(AddCommand(req))).value;
      && (IntTruthy(req.uid) ==>
            call.uid.Some? && IsDecimal(call.uid.value) && ParseInt(call.uid.value) == req.uid.value)
      && (IntTruthy(req.gid) ==>
            call.gid.Some? && IsDecimal(call.gid.value) && ParseInt(call.gid.value) == req.gid.value)
  {
    AddReadsBack(req);
    if IntTruthy(req.uid) { ParseFormatInt(req.uid.value); }
    if IntTruthy(req.gid) { ParseFormatInt(req.gid.value); }
  }

  /** A comma-separated `groups` string reaches `-G` unchanged, even the empty
      string, whose split is the one-element list `[""]`. */
  lemma AddCsvGroupsPassedThrough(req: AddRequest, s: string)
    requires req.groups == Some(Csv(s))
    ensures RequestedCall(req).groups == Some(s)
  {
  }

  /** `add("alice", home="bob")`: a home path without a slash. */
  const SlashFreeHome := AddRequest("alice", None, None, None, HomeDir("bob"), None, false)

  lemma SlashFreeHomePieces()
    ensures AddPieces(SlashFreeHome) == ["pw", "useradd", "-m", "-b", "", "-n", "alice"]
    ensures !AddArgsArePlain(SlashFreeHome)
  {
    assert Dirname("bob") == "";
  }

  lemma SlashFreeHomeAreWords()
    ensures AllWords(["pw", "useradd", "-m", "-b"]) && AllWords(["-n", "alice"])
  {
    assert Word("pw") && Word("useradd") && Word("-m") && Word("-b");
    assert Word("-n") && Word("alice");
  }

  lemma SlashFreeHomeWords()
    ensures Words(Join(["pw", "useradd", "-m", "-b", "", "-n", "alice"], " "))
         == ["pw", "useradd", "-m", "-b", "-n", "alice"]
  {
    var front := ["pw", "useradd", "-m", "-b"];
    var back := ["-n", "alice"];
    SlashFreeHomeAreWords();
    assert front + [""] + back == ["pw", "useradd", "-m", "-b", "", "-n", "alice"];
    WordsSkipEmpty(front, back);
  }

  lemma SlashFreeHomeParse()
    ensures ParseUserAdd(["pw", "useradd", "-m", "-b", "-n", "alice"]).None?
  {
    var w := ["pw", "useradd", "-m", "-b", "-n", "alice"];
    assert w[2..] == ["-m", "-b", "-n", "alice"];
    assert ["-m", "-b", "-n", "alice"][1..] == ["-b", "-n", "alice"];
    assert ["-b", "-n", "alice"][2..] == ["alice"];
  }

  /** A home path without a slash has an empty dirname, so `-b` is written with an
      empty value. The shell drops the empty field, so `-b` is followed by `-n`;
      `ParseUserAdd` takes `-n` as the base directory, and the words no longer read
      back as a `pw useradd` call. */
  lemma AddHomeWithoutSlash()
    ensures !AddArgsArePlain(SlashFreeHome)
    ensures Words(AddCommand(SlashFreeHome)) == ["pw", "useradd", "-m", "-b", "-n", "alice"]
    ensures ParseUserAdd(Words(AddCommand(SlashFreeHome))).None?
  {
    SlashFreeHomePieces();
    AddCommandJoins(SlashFreeHome);
    SlashFreeHomeWords();
    SlashFreeHomeParse();
  }

  // ----- delete and usermod -----

  function DeleteFront(remove: bool): seq<string>
  {
    ["pw", "userdel"] + (if remove then ["-r"] else [])
  }

  lemma DeleteLine(name: string, remove: bool)
    ensures DeleteCommand(name, remove) == Spaced(DeleteFront(remove)) + name
  {
    SpacedTwo("pw", "userdel");
    SpacedAppend(["pw", "userdel"], if remove then ["-r"] else []);
    assert Spaced(["-r"]) == "-r " by { assert ["-r"][1..] == []; }
  }

  lemma DeleteFrontWords(remove: bool)
    ensures AllWords(DeleteFront(remove))
  {
    assert Word("pw") && Word("userdel") && Word("-r");
  }

  /** `delete` asks for `pw userdel [-r] name`; `force` never reaches the line. */
  lemma DeleteWords(name: string, remove: bool)
    requires Word(name)
    ensures Words(DeleteCommand(name, remove))
         == ["pw", "userdel"] + (if remove then ["-r"] else []) + [name]
  {
    DeleteLine(name, remove);
    DeleteFrontWords(remove);
    AllWordsAppend(DeleteFront(remove), [name]);
    WordsOfPlainFront(DeleteFront(remove), name);
  }

  lemma UsermodLine(flag: string, value: string, name: string)
    ensures UsermodCommand(flag, value, name) == Spaced(["pw", "usermod", flag, value]) + name
  {
    SpacedFour("pw", "usermod", flag, value);
    assert "pw usermod " == "pw" + " " + "usermod" + " ";
  }

  /** A `pw usermod` line with one option and its value, then the user name. */
  lemma UsermodWords(flag: string, value: string, name: string)
    requires Word(flag) && Word(value) && Word(name)
    ensures Words(UsermodCommand(flag, value, name)) == ["pw", "usermod", flag, value, name]
  {
    var front := ["pw", "usermod", flag, value];
    UsermodLine(flag, value, name);
    assert Word("pw") && Word("usermod");
    assert front + [name] == ["pw", "usermod", flag, value, name];
    WordsOfPlainFront(front, name);
  }

  /** `chuid` asks for `pw usermod -u <uid> name`. */
  lemma ChUidWords(uid: int, name: string)
    requires Word(name)
    ensures Words(ChUidCommand(uid, name)) == ["pw", "usermod", "-u", FormatInt(uid), name]
  {
    FormatIntIsWord(uid);
    assert Word("-u");
    UsermodWords("-u", FormatInt(uid), name);
  }

  /** `chgid` asks for `pw usermod -g <gid> name`. */
  lemma ChGidWords(gid: int, name: string)
    requires Word(name)
    ensures Words(ChGidCommand(gid, name)) == ["pw", "usermod", "-g", FormatInt(gid), name]
  {
    FormatIntIsWord(gid);
    assert Word("-g");
    UsermodWords("-g", FormatInt(gid), name);
  }

  /** `chshell` asks for `pw usermod -s <shell> name`. */
  lemma ChShellWords(shell: string, name: string)
    requires Word(shell) && Word(name)
    ensures Words(ChShellCommand(shell, name)) == ["pw", "usermod", "-s", shell, name]
  {
    assert Word("-s");
    UsermodWords("-s", shell, name);
  }

  function ChHomePieces(home: string, persist: bool): seq<string>
  {
    ["pw", "usermod", "-d", home] + (if persist then ["", "-m"] else [])
  }

  lemma ChHomeLine(home: string, persist: bool, name: string)
    ensures ChHomeCommand(home, persist, name) == Spaced(ChHomePieces(home, persist)) + name
  {
    SpacedFour("pw", "usermod", "-d", home);
    SpacedTwo("", "-m");
    SpacedAppend(["pw", "usermod", "-d", home], if persist then ["", "-m"] else []);
  }

  /** `chhome` asks for `pw usermod -d <home> [-m] name`; the doubled space before
      `-m` is an empty piece the shell drops. */
  lemma ChHomeWords(home: string, persist: bool, name: string)
    requires Word(home) && Word(name)
    ensures Words(ChHomeCommand(home, persist, name))
         == ["pw", "usermod", "-d", home] + (if persist then ["-m"] else []) + [name]
  {
    var base := ["pw", "usermod", "-d", home];
    ChHomeLine(home, persist, name);
    assert Word("pw") && Word("usermod") && Word("-d") && Word("-m");
    assert AllWords(base) && AllWords(["-m", name]);
    if persist {
      var xs := base + ["", "-m"];
      assert ChHomePieces(home, persist) == xs;
      assert [name][1..] == [];
      SpacedJoin(xs, [name]);
      assert xs + [name] == base + [""] + ["-m", name];
      WordsSkipEmpty(base, ["-m", name]);
    } else {
      assert ChHomePieces(home, persist) == base;
      assert AllWords(base + [name]);
      WordsOfPlainFront(base, name);
    }
  }

  function ChGroupsPieces(groups: seq<string>, name: string): seq<string>
  {
    ["pw", "usermod", "-G", Join(groups, ","), "-n", name]
  }

  lemma ChGroupsLine(groups: seq<string>, name: string, append: bool)
    ensures ChGroupsCommand(groups, name, append)
         == Spaced(ChGroupsPieces(groups, name)) + (if append then "-a" else "")
  {
    var j := Join(groups, ",");
    SpacedSix("pw", "usermod", "-G", j, "-n", name);
    assert "pw usermod -G " == "pw" + " " + "usermod" + " " + "-G" + " ";
    assert " -n " == " " + "-n" + " ";
  }

  /** `chgroups` asks for `pw usermod -G <g1,g2,...> -n name [-a]`; without
      `append` the trailing space leaves an empty piece the shell drops. */
  lemma ChGroupsWords(groups: seq<string>, name: string, append: bool)
    requires Word(Join(groups, ",")) && Word(name)
    ensures Words(ChGroupsCommand(groups, name, append))
         == ["pw", "usermod", "-G", Join(groups, ","), "-n", name] + (if append then ["-a"] else [])
  {
    var front := ChGroupsPieces(groups, name);
    var last := if append then "-a" else "";
    ChGroupsLine(groups, name, append);
    FixedWords();
    assert AllWords(front);
    PlainWordsSeparable(front);
    WordsOfSpacedLine(front, last);
    NonEmptyAppend(front, [last]);
    NonEmptyOfWords(front);
    if append {
      NonEmptyOfWords([last]);
    } else {
      assert [last][1..] == [];
    }
  }
}
