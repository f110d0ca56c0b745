/**
 * The build specification of a project: an ordered list of build commands, each a builder
 * name with an arguments map. Lookups take the first command with a given name, as a scan
 * over the project description's command array does.
 */
module BuildCommands {
  import opened Wrappers

  datatype BuildCommand = BuildCommand(name: string, arguments: map<string, string>)

  /** No two commands of the build spec share a builder name. */
  ghost predicate UniqueNames(cmds: seq<BuildCommand>) {
    forall i, j | 0 <= i < j < |cmds| :: cmds[i].name != cmds[j].name
  }

  /** The builder names of the build spec, in order. */
  function Names(cmds: seq<BuildCommand>): seq<string> {
    if cmds == [] then [] else [cmds[0].name] + Names(cmds[1..])
  }

  /** The arguments of the first command named `name`, or absent when there is none. */
  function Arguments(cmds: seq<BuildCommand>, name: string): (r: Option<map<string, string>>)
    ensures r.None? <==> name !in Names(cmds)
  {
    if cmds == [] then None
    else if cmds[0].name == name then Some(cmds[0].arguments)
    else Arguments(cmds[1..], name)
  }

  /**
   * The build spec after `addBuildCommand(name, arguments)`: the first command with that name
   * keeps its place and gets the new arguments, unless it already has them; a command with a
   * new name is appended.
   */
  function WithBuildCommand(cmds: seq<BuildCommand>, name: string, arguments: map<string, string>): seq<BuildCommand> {
    if cmds == [] then [BuildCommand(name, arguments)]
    else if cmds[0].name == name then
      if cmds[0].arguments == arguments then cmds else [BuildCommand(name, arguments)] + cmds[1..]
    else [cmds[0]] + WithBuildCommand(cmds[1..], name, arguments)
  }

  /** The build spec after `removeBuildCommand(name)`: every command with that name is dropped. */
  function WithoutBuildCommand(cmds: seq<BuildCommand>, name: string): seq<BuildCommand> {
    if cmds == [] then []
    else if cmds[0].name == name then WithoutBuildCommand(cmds[1..], name)
    else [cmds[0]] + WithoutBuildCommand(cmds[1..], name)
  }

  /** Adding a command whose name and arguments are already there leaves the build spec as it is. */
  lemma {:induction false} AddSameBuildCommandIsNoOp(cmds: seq<BuildCommand>, name: string, arguments: map<string, string>)
    requires Arguments(cmds, name) == Some(arguments)
    ensures WithBuildCommand(cmds, name, arguments) == cmds
  {
    if cmds[0].name != name {
      AddSameBuildCommandIsNoOp(cmds[1..], name, arguments);
    }
  }

  /** After adding, `name` has exactly the given arguments and every other command's are unchanged. */
  lemma {:induction false} AddBuildCommandArguments(cmds: seq<BuildCommand>, name: string, arguments: map<string, string>, other: string)
    ensures Arguments(WithBuildCommand(cmds, name, arguments), other)
         == if other == name then Some(arguments) else Arguments(cmds, other)
  {
    if cmds != [] && cmds[0].name != name {
      AddBuildCommandArguments(cmds[1..], name, arguments, other);
      assert WithBuildCommand(cmds, name, arguments)[1..] == WithBuildCommand(cmds[1..], name, arguments);
    } else if cmds != [] {
      assert ([BuildCommand(name, arguments)] + cmds[1..])[1..] == cmds[1..];
    }
  }

  /** Adding keeps the order of the commands: an existing name stays in place, a new one goes last. */
  lemma {:induction false} AddBuildCommandNames(cmds: seq<BuildCommand>, name: string, arguments: map<string, string>)
    ensures Names(WithBuildCommand(cmds, name, arguments))
         == if name in Names(cmds) then Names(cmds) else Names(cmds) + [name]
  {
    var r := WithBuildCommand(cmds, name, arguments);
    if cmds == [] {
      assert Names(r) == [name] + Names([]);
    } else if cmds[0].name == name {
      assert r[0].name == name && r[1..] == cmds[1..];
    } else {
      AddBuildCommandNames(cmds[1..], name, arguments);
      assert r[1..] == WithBuildCommand(cmds[1..], name, arguments);
      assert Names(cmds) == [cmds[0].name] + Names(cmds[1..]);
    }
  }

  /** Adding the same command twice has the effect of adding it once. */
  lemma AddBuildCommandIdempotent(cmds: seq<BuildCommand>, name: string, arguments: map<string, string>)
    ensures WithBuildCommand(WithBuildCommand(cmds, name, arguments), name, arguments)
         == WithBuildCommand(cmds, name, arguments)
  {
    AddBuildCommandArguments(cmds, name, arguments, name);
    AddSameBuildCommandIsNoOp(WithBuildCommand(cmds, name, arguments), name, arguments);
  }

  lemma {:induction false} UniqueNamesByNames(cmds: seq<BuildCommand>)
    ensures |Names(cmds)| == |cmds|
    ensures forall i | 0 <= i < |cmds| :: Names(cmds)[i] == cmds[i].name
  {
    if cmds != [] {
      UniqueNamesByNames(cmds[1..]);
    }
  }

  /** Adding a command keeps builder names unique. */
  lemma AddBuildCommandKeepsUniqueNames(cmds: seq<BuildCommand>, name: string, arguments: map<string, string>)
    requires UniqueNames(cmds)
    ensures UniqueNames(WithBuildCommand(cmds, name, arguments))
  {
    var r := WithBuildCommand(cmds, name, arguments);
    AddBuildCommandNames(cmds, name, arguments);
    UniqueNamesByNames(cmds);
    UniqueNamesByNames(r);
    forall i, j | 0 <= i < j < |r| ensures r[i].name != r[j].name {
      assert Names(r)[i] == r[i].name && Names(r)[j] == r[j].name;
      if name !in Names(cmds) && j == |cmds| {
        assert Names(r)[i] == Names(cmds)[i];
      }
    }
  }

  /** After removing, `name` has no command left and every other command's arguments are unchanged. */
  lemma {:induction false} RemoveBuildCommandArguments(cmds: seq<BuildCommand>, name: string, other: string)
    ensures Arguments(WithoutBuildCommand(cmds, name), other)
         == if other == name then None else Arguments(cmds, other)
  {
    if cmds != [] {
      RemoveBuildCommandArguments(cmds[1..], name, other);
      if cmds[0].name != name {
        assert WithoutBuildCommand(cmds, name)[1..] == WithoutBuildCommand(cmds[1..], name);
      }
    }
  }

  /** Removing a name that has no command leaves the build spec as it is. */
  lemma {:induction false} RemoveAbsentBuildCommandIsNoOp(cmds: seq<BuildCommand>, name: string)
    requires Arguments(cmds, name) == None
    ensures WithoutBuildCommand(cmds, name) == cmds
  {
    if cmds != [] {
      RemoveAbsentBuildCommandIsNoOp(cmds[1..], name);
    }
  }

  /** Removing leaves exactly the old builder names other than `name`, and never lengthens the build spec. */
  lemma {:induction false} RemoveBuildCommandNames(cmds: seq<BuildCommand>, name: string)
    ensures forall n :: n in Names(WithoutBuildCommand(cmds, name)) <==> n in Names(cmds) && n != name
    ensures |WithoutBuildCommand(cmds, name)| <= |cmds|
  {
    if cmds != [] {
      RemoveBuildCommandNames(cmds[1..], name);
      var rest := WithoutBuildCommand(cmds[1..], name);
      if cmds[0].name != name {
        assert WithoutBuildCommand(cmds, name) == [cmds[0]] + rest;
        assert Names([cmds[0]] + rest) == [cmds[0].name] + Names(rest);
      }
    }
  }

  /** Removing a command keeps builder names unique. */
  lemma {:induction false} RemoveBuildCommandKeepsUniqueNames(cmds: seq<BuildCommand>, name: string)
    requires UniqueNames(cmds)
    ensures UniqueNames(WithoutBuildCommand(cmds, name))
  {
    if cmds != [] {
      assert UniqueNames(cmds[1..]) by {
        forall i, j | 0 <= i < j < |cmds[1..]| ensures cmds[1..][i].name != cmds[1..][j].name {
          assert cmds[1..][i] == cmds[i + 1] && cmds[1..][j] == cmds[j + 1];
        }
      }
      RemoveBuildCommandKeepsUniqueNames(cmds[1..], name);
      RemoveBuildCommandNames(cmds[1..], name);
      var rest := WithoutBuildCommand(cmds[1..], name);
      if cmds[0].name != name {
        UniqueNamesByNames(rest);
        UniqueNamesByNames(cmds[1..]);
        assert cmds[0].name !in Names(cmds[1..]) by {
          forall k | 0 <= k < |cmds[1..]| ensures Names(cmds[1..])[k] != cmds[0].name {
            assert cmds[1..][k] == cmds[k + 1];
          }
        }
        var r := [cmds[0]] + rest;
        forall i, j | 0 <= i < j < |r| ensures r[i].name != r[j].name {
          if i == 0 {
            assert r[j] == rest[j - 1];
            assert Names(rest)[j - 1] == rest[j - 1].name;
          } else {
            assert r[i] == rest[i - 1] && r[j] == rest[j - 1];
          }
        }
      }
    }
  }

  /**
   * With unique names, removing the command at position `k` leaves exactly the other commands,
   * in their old order.
   */
  lemma {:induction false} RemoveBuildCommandAt(cmds: seq<BuildCommand>, name: string, k: nat)
    requires UniqueNames(cmds) && k < |cmds| && cmds[k].name == name
    ensures WithoutBuildCommand(cmds, name) == cmds[..k] + cmds[k + 1..]
  {
    var tail := cmds[1..];
    assert UniqueNames(tail) by {
      forall i, j | 0 <= i < j < |tail| ensures tail[i].name != tail[j].name {
        assert tail[i] == cmds[i + 1] && tail[j] == cmds[j + 1];
      }
    }
    if k == 0 {
      UniqueNamesByNames(tail);
      assert name !in Names(tail) by {
        forall m | 0 <= m < |tail| ensures Names(tail)[m] != name {
          assert tail[m] == cmds[m + 1];
        }
      }
      RemoveAbsentBuildCommandIsNoOp(tail, name);
    } else {
      assert tail[k - 1] == cmds[k];
      RemoveBuildCommandAt(tail, name, k - 1);
      assert cmds[..k] == [cmds[0]] + tail[..k - 1];
      assert cmds[k + 1..] == tail[k..];
    }
  }
}
