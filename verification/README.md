# pw_user: the FreeBSD `pw` user adapter, modelled in Dafny

This project models `salt/modules/pw_user.py`. That module manages the local
users of a FreeBSD host through the `pw` command and reads accounts back
through the password and group databases. The model covers three parts.

- **Command builders.** These are the exact `pw useradd`, `pw userdel` and
  `pw usermod` lines that `add`, `delete`, `chuid`, `chgid`, `chshell`,
  `chhome` and `chgroups` build. Each string is concatenated the way the source
  concatenates it, including the double space `chhome` writes before `-m` and
  the trailing space `chgroups` leaves when it is not appending. Python's
  truthiness decides which options appear, and it is written out explicitly:
  `uid=0`, `shell=""`, `home=False` and an empty group list request nothing.
  The counterpart of each line is the list of words a shell splits it into.
  For `pw useradd`, a parser reads those words back into the options they
  request. Suppose every value written into the line is a plain shell word
  (`Text.Word`: ASCII letters, digits and `- _ . / , : + @ %` only). For a home
  given as a path, the value written is its `dirname`, not the path. Then the
  line is proved to read back as exactly the options the source writes
  (`ShellWords.RequestedCall`). A home path `/srv/x/bob_home`, for instance,
  reads back as base directory `/srv/x`.
- **Readers.** `list_groups`, `info` and `getent` work over an abstract password
  database and group database, each a sequence in enumeration order.
  `getpwnam` is the first entry with the given name; an absent name is a
  `KeyError`. `list_groups` is proved to return the sorted, duplicate-free
  names of the groups listing the user, and to be the only sequence that does.
- **Compare-mutate-verify.** `chuid`, `chgid`, `chshell` and `chhome` share one
  generic rule: read the record, return at once when it already holds the
  target, otherwise issue the command, read again and judge the result. The
  database as read after the command is a parameter that may be anything,
  because the command itself is not modelled. `chgroups` has its own rule,
  which is modelled as written, together with the verdict it evidently intends
  (see Findings).

Modules:

| file | module | contents |
|---|---|---|
| wrappers.dfy | `Wrappers` | `Option`, `Result` |
| text.dfy | `Text` | `str.split`, `str.join`, and how a shell splits a line into words |
| order.dfy | `StringOrder` | the code-point order `sorted` uses on strings, and sorted insertion |
| decimal.dfy | `Decimal` | decimal formatting of integers, as `'{0}'.format(n)`, and its parser |
| paths.dfy | `Paths` | `os.path.dirname` of a POSIX path |
| accounts.dfy | `Accounts` | the databases, `info`, `list_groups`, `getent` |
| commands.dfy | `Commands` | the arguments of `add` and every `pw` line |
| shell_words.dfy | `ShellWords` | the words of every line, and the `pw useradd` parser |
| pw_user.dfy | `PwUser` | `add`, `delete`, the `ch*` operations, the chgroups finding |

## Model

| member | source | states |
|---|---|---|
| PwUser.Add | salt/modules/pw_user.py:37-56 | The verdict is true exactly when the exit code is 0. When every value written into the line is a plain shell word, the line reads back as exactly the options the source writes. For a home path, the value written is its `dirname`. |
| ShellWords.AddReadsBack | salt/modules/pw_user.py:37-53 | When every value written into the line is a plain word, parsing the words of the `pw useradd` line gives back the requested call. That call holds: shell only if truthy, uid and gid only if non-zero, groups comma-joined only if the list is non-empty, `-m` only for a truthy home, `-b dirname(home)` only for a home given as a path, then `-n name`. |
| ShellWords.AddIdsReadBack | salt/modules/pw_user.py:42-45 | The `-u` and `-g` values in the `pw useradd` line parse back to the numbers passed in. |
| ShellWords.AddWords | salt/modules/pw_user.py:39-53 | With plain words, the words of the `pw useradd` line are the option pieces in the source's fixed order. |
| ShellWords.AddCsvGroupsPassedThrough | salt/modules/pw_user.py:37-38 | A comma-separated `groups` string reaches `-G` unchanged, the empty string included, because it splits to `[""]`. |
| Commands.AddCsvIsList | salt/modules/pw_user.py:37-47 | A non-empty list of comma-free group names and its comma-joined string produce the same `pw useradd` line. |
| Commands.AddCommandJoins | salt/modules/pw_user.py:39-53 | The `pw useradd` line is its option pieces joined by single spaces. |
| Commands.GroupList | salt/modules/pw_user.py:37-38 | Splitting a `groups` string on commas gives a non-empty list of comma-free pieces that joins back to the string. |
| ShellWords.AddHomeWithoutSlash | salt/modules/pw_user.py:48-53 | For `add("alice", home="bob")`, the dirname is empty, so `-b` gets an empty value. The words are `pw useradd -m -b -n alice`, and they do not read back as a `pw useradd` call. |
| ShellWords.ParseLayout | salt/modules/pw_user.py:39-53 | Any consistent `pw useradd` request, laid out in the source's option order, parses back to itself. |
| PwUser.Delete | salt/modules/pw_user.py:67-74 | The verdict is true exactly when the exit code is 0. The words are `pw userdel`, then `-r` only when `remove` is set, then the name; `force` plays no part. |
| ShellWords.DeleteWords | salt/modules/pw_user.py:67-70 | The words of the `pw userdel` line are `pw userdel [-r] name`. |
| Accounts.GetEnt | salt/modules/pw_user.py:85-88 | Returns one record per password entry, in order, each equal to `info` of that entry's name. With unique names, each record carries its own entry's fields. |
| PwUser.Confirmed | salt/modules/pw_user.py:105-107 | Once the old value differs from the target, success means the new value is the target. An unchanged value is never success. |
| PwUser.ChangeAttribute | salt/modules/pw_user.py:99-107 | The shared rule. An absent user is a `KeyError`. A value already at the target succeeds with no command. Otherwise the command is issued and the verdict is whether the record read back holds the target; a user gone by then is a `KeyError`. |
| PwUser.ChUid | salt/modules/pw_user.py:99-107 | `chuid` follows the shared rule on the uid, with the line `pw usermod -u <uid> <name>`. |
| PwUser.ChGid | salt/modules/pw_user.py:118-126 | `chgid` follows the shared rule on the primary gid, with the line `pw usermod -g <gid> <name>`. |
| PwUser.ChShell | salt/modules/pw_user.py:137-145 | `chshell` follows the shared rule on the login shell, with the line `pw usermod -s <shell> <name>`. |
| PwUser.ChHome | salt/modules/pw_user.py:157-168 | `chhome` follows the shared rule on the home directory, with the line `pw usermod -d <home> ` plus ` -m ` when persisting, plus the name. |
| PwUser.UnchangedDatabaseFails | salt/modules/pw_user.py:104-107 | When the database reads back unchanged, a call that had something to change reports failure. |
| PwUser.SuccessMeansTarget | salt/modules/pw_user.py:99-107 | A reported success means the record last read holds the target value. |
| ShellWords.ChUidWords | salt/modules/pw_user.py:102 | The words of the chuid line are `pw usermod -u <decimal uid> <name>`. |
| ShellWords.ChGidWords | salt/modules/pw_user.py:121 | The words of the chgid line are `pw usermod -g <decimal gid> <name>`. |
| ShellWords.ChShellWords | salt/modules/pw_user.py:140 | The words of the chshell line are `pw usermod -s <shell> <name>`. |
| ShellWords.ChHomeWords | salt/modules/pw_user.py:160-163 | The words of the chhome line are `pw usermod -d <home>`, then `-m` only when persisting, then the name. The double space adds no word. |
| PwUser.ChGroups | salt/modules/pw_user.py:180-190 | No command when the user's groups already equal the requested set. Otherwise the line is issued, and the verdict is true exactly when every group the user had before is still held afterwards. |
| PwUser.NothingLost | salt/modules/pw_user.py:190 | An empty set difference `before - after` means `before` is a subset of `after`. |
| PwUser.ChGroupsUnchangedSucceeds | salt/modules/pw_user.py:189-190 | As written, `chgroups` reports success when the group database reads back unchanged, whatever the password database holds. |
| PwUser.ChGroupsCsvIsList | salt/modules/pw_user.py:180-181 | A comma-separated string and the list of its pieces are the same `chgroups` request. |
| PwUser.ChGroupsListIsCsv | salt/modules/pw_user.py:180-185 | A non-empty list of comma-free names and its comma-joined string are the same `chgroups` request. |
| ShellWords.ChGroupsWords | salt/modules/pw_user.py:185-187 | The words of the chgroups line are `pw usermod -G <joined> -n <name>`, then `-a` only when appending. The trailing space adds no word. |
| PwUser.ChGroupsIntended | salt/modules/pw_user.py:183-190 | The corrected verdict. When appending, success means every group held before and every requested group is held afterwards. When replacing, it means the groups afterwards are exactly the requested ones. |
| PwUser.ChGroupsAppendRefines | salt/modules/pw_user.py:186-190 | When appending, the corrected verdict is success exactly when the source's verdict is success and, unless no command was issued, every requested group is held afterwards. |
| PwUser.ChGroupsAppendLosingGroupFails | salt/modules/pw_user.py:186-190 | Appending `ops` for a user in `wheel` fails under both verdicts when `wheel` is lost on the way. |
| PwUser.ChGroupsReplaceDroppingGroupFails | salt/modules/pw_user.py:189-190 | When replacing, if the groups afterwards are exactly the requested ones and the user held a group before that was not requested, the call is reported as failure as written and as success under the corrected verdict. |
| PwUser.ChGroupsReplaceReportedAsFailure | salt/modules/pw_user.py:189-190 | Worked example: alice's `{wheel}` replaced by `ops`, which `pw` carries out exactly, is reported as failure as written and as success under the corrected verdict. |
| Accounts.Info | salt/modules/pw_user.py:201-210 | A `KeyError` exactly when no entry has the name. Otherwise the record copies the first such entry's fields and carries the name's group list. |
| Accounts.InfoOfUniqueEntry | salt/modules/pw_user.py:201-210 | With unique names, `info` of an entry's name describes that entry. |
| Accounts.FindUser | salt/modules/pw_user.py:202 | The entry read is the first with the name. There is none exactly when the name is absent. |
| Accounts.ListGroups | salt/modules/pw_user.py:221-225 | The result is strictly sorted, and holds exactly the names of the groups whose member list contains the user. |
| Accounts.ListGroupsCanonical | salt/modules/pw_user.py:221-225 | Any strictly sorted sequence holding exactly those names is the result of `list_groups`. |
| StringOrder.Insert | salt/modules/pw_user.py:224-225 | Adding a name to a strictly sorted list keeps it strictly sorted, and its elements are the old ones plus the name. |
| StringOrder.SortedUnique | salt/modules/pw_user.py:225 | Two strictly sorted sequences with the same elements are equal. |
| StringOrder.LessTransitive | salt/modules/pw_user.py:225 | The string order `sorted` uses is transitive. |
| StringOrder.LessConnected | salt/modules/pw_user.py:225 | Any two distinct strings are ordered one way or the other. |
| Decimal.ParseFormatInt | salt/modules/pw_user.py:43 | Parsing the decimal text of an integer gives the integer back. |
| Decimal.FormatIntInjective | salt/modules/pw_user.py:43 | Distinct integers have distinct decimal texts. |
| Paths.Dirname | salt/modules/pw_user.py:52 | The dirname is a prefix of the path. It is empty exactly when the path has no `/`. It does not end in `/` unless it is made of slashes only. |
| Paths.DirnameOfChild | salt/modules/pw_user.py:52 | `dirname(dir + "/" + base)` is `dir`, for a `dir` not ending in `/` and a `base` without `/`. |
| Paths.DirnameOfRootChild | salt/modules/pw_user.py:52 | `dirname("/" + base)` is `/` for a `base` without `/`. |
| Text.JoinSplit | salt/modules/pw_user.py:37-38 | Joining the comma-split pieces of a string with commas gives the string back. |
| Text.SplitJoin | salt/modules/pw_user.py:180-185 | Splitting the comma-join of a non-empty list of comma-free names gives the list back. |

## Left out

- `__virtual__` (lines 15-19) is left out. It only gates loading the module on a FreeBSD kernel.
- Running commands is not modelled. `cmd.run_all` and `cmd.run` become parameters: `add` and `delete` take the exit code, and the `ch*` operations take the databases as read after the command, which may be anything.
- The on-disk formats of the password and group databases are not modelled. `pwd.getpwall`, `pwd.getpwnam` and `grp.getgrall` are sequences of entries in enumeration order. When a name occurs twice, `getpwnam` is taken to return the first entry.
- `**kwargs` of `add` is left out because the source ignores it. `system` is carried in the request but never read, as in the source.
- Only the documented argument types are modelled. `uid` and `gid` are integers or `None`, and `shell` is a string or `None`. `home` of `add` is a boolean or a string. `groups` is a string or a list of strings. Other Python values, such as a uid passed as a string, are left out.
- Shell quoting is not modelled. `cmd.run_all` and `cmd.run` hand each line to `/bin/sh`, but `Text.Words` splits only on spaces. The word-list lemmas and the read-back of `add` therefore require every value written into the line to be a plain shell word (`Text.Word`). That excludes whitespace of any kind, quotes, `$`, backquotes, backslashes, `;`, `&`, `|`, redirections, glob characters, `#` and `~`. The model still builds the line for any other value, such as a name `x;reboot`, but proves nothing about what the shell does with it.
- ShellWords.AddReadsBack is not claimed for a home path without a `/`. Its dirname is empty, so line 52 writes `-b` with an empty value, the shell drops that empty field, so `-b` is followed by `-n`, and `ShellWords.ParseUserAdd` takes `-n` as the base directory. `ShellWords.AddHomeWithoutSlash` shows this for `add("alice", home="bob")`. Whether `pw` should be given the path itself is not decided here, so no corrected `add` is modelled.
- `Paths.Dirname` follows the POSIX `os.path.dirname` of Python. Only the parent-of-child facts `add` relies on are proved about it.
- `StringOrder.Less` compares characters by code point, as Python compares `str` values. Locale collation is not involved.
- Concurrency is not modelled. Other processes changing the databases between the two reads are covered only because the post-command database is arbitrary.
- `PwUser.ChGroups` follows line 190: it compares the groups held before the call with the groups held after it, not with the groups requested.

## Findings

| source | as written | input that shows it | evidently intended | confidence | as-written member | corrected member |
|---|---|---|---|---|---|---|
| salt/modules/pw_user.py:189-190 | `chgroups` reports success when no group held before the call is missing afterwards, whatever `append` is. | User `alice` is in `wheel` only and calls `chgroups("alice", "ops", append=False)`. `pw` sets her groups to exactly `{ops}`. `wheel` is gone, so the call reports False although the requested replacement happened. Conversely, a `pw` run that changes nothing is reported as success. | When replacing, success when the groups afterwards are exactly the requested ones. When appending, success when every group held before and every requested group are held afterwards. | medium, not executed | PwUser.ChGroupsReplaceDroppingGroupFails (worked example: PwUser.ChGroupsReplaceReportedAsFailure) | PwUser.ChGroupsIntended |
