/** Actions: command templates with the attributes that decide when and how they run,
    and the scan of the templates that decides which locations they need. */
module Actions {
  import opened Options

  datatype Event = NoEvent | DoubleClick | DragNDrop | MenuEvent

  datatype Qualifier = NoQualifier | Shift | Control | Alt

  datatype CommandType = Internal | AmigaDos | Workbench | Script | ARexx

  /** One flag per bit of the action's flag word. */
  datatype Flag =
    | Unquoted | NeedDest | Async | Multiple | CdSource | CdDestination | SpatialMode
    | NeedEntries | NeedPath | NeedUri | NeedFilePart

  datatype Command = Command(kind: CommandType, text: string)

  datatype Action = Action(
    name: Option<string>,
    menuName: Option<string>,
    event: Event,
    qualifier: Qualifier,
    flags: set<Flag>,
    commands: seq<Command>)

  const NEW_ACTION := Action(None, None, MenuEvent, NoQualifier, {}, [])

  // ----- What a template needs ----------------------------------------------------

  /** The flags that the placeholder starting at `command[i]` asks for. */
  function NeedAt(command: string, i: nat): set<Flag>
    requires i + 1 < |command|
  {
    if command[i] != '%' then {}
    else if command[i + 1] == 'd' || command[i + 1] == 'D' then {NeedDest}
    else if command[i + 1] == 's' then
      {NeedEntries,
       if i + 2 >= |command| then NeedUri
       else if command[i + 2] == 'p' then NeedPath
       else if command[i + 2] == 'f' then NeedFilePart
       else NeedUri}
    else {}
  }

  /** The flags asked for at any of the first `n` positions. */
  ghost function NeedBefore(command: string, n: nat): set<Flag>
    requires n == 0 || n < |command|
  {
    set i, f | 0 <= i < n && f in NeedAt(command, i) :: f
  }

  ghost function Need(command: string): set<Flag> {
    NeedBefore(command, if command == "" then 0 else |command| - 1)
  }

  ghost function NeedAll(commands: seq<Command>): set<Flag> {
    set k, f | 0 <= k < |commands| && f in Need(commands[k].text) :: f
  }

  /** An action after its set-up. */
  ghost function SetUp(an: Action): Action {
    an.(flags := an.flags + NeedAll(an.commands),
        name := if an.name.None? then Some("Default") else an.name)
  }

  /** An action in the list of its descriptor. */
  class ActionNode {
    var event: Event
    var qualifier: Qualifier
    var flags: set<Flag>
    var name: Option<string>
    var menuName: Option<string>
    var commands: seq<Command>
    /** The action belongs to the object that uses it, and is deleted with it. */
    var temporary: bool

    function Value(): Action
      reads this
    {
      Action(name, menuName, event, qualifier, flags, commands)
    }

    constructor ()
      ensures Value() == NEW_ACTION && !temporary
    {
      event, qualifier, flags := MenuEvent, NoQualifier, {};
      name, menuName, commands, temporary := None, None, [], false;
    }

    constructor Temporary()
      ensures Value() == NEW_ACTION && temporary
    {
      event, qualifier, flags := MenuEvent, NoQualifier, {};
      name, menuName, commands, temporary := None, None, [], true;
    }

    /** A copy of `source` that shares nothing with it. */
    constructor Duplicate(source: ActionNode)
      ensures Value() == old(source.Value()) && temporary == old(source.temporary)
    {
      event, qualifier, flags := source.event, source.qualifier, source.flags;
      name, menuName, commands, temporary := source.name, source.menuName, [], source.temporary;
      new;
      var k := 0;
      while k < |source.commands|
        invariant 0 <= k <= |source.commands| && commands == source.commands[..k]
        invariant Value().(commands := []) == source.Value().(commands := [])
        invariant source.commands == old(source.commands) && source != this
        invariant source.Value() == old(source.Value()) && temporary == old(source.temporary)
      {
        AddCommand(source.commands[k].kind, source.commands[k].text);
        k := k + 1;
      }
      assert source.commands[..k] == source.commands;
    }

    method AddCommand(kind: CommandType, text: string)
      modifies this`commands
      ensures commands == old(commands) + [Command(kind, text)]
    {
      commands := commands + [Command(kind, text)];
    }

    /** Scans the command templates for placeholders and fills in a missing name. */
    method Setup()
      modifies this`flags, this`name
      ensures Value() == SetUp(old(Value()))
    {
      var need: set<Flag> := {};
      for k := 0 to |commands|
        invariant need == NeedAll(commands[..k]) && Value() == old(Value())
      {
        var more := ScanCommand(commands[k].text);
        need := need + more;
        NeedAllSnoc(commands[..k], commands[k]);
        assert commands[..k] + [commands[k]] == commands[..k + 1];
      }
      assert commands[..|commands|] == commands;
      flags := flags + need;
      if name.None? {
        name := Some("Default");
      }
    }
  }

  /** Looks for placeholders at every position of a template but the last. */
  method ScanCommand(command: string) returns (need: set<Flag>)
    ensures need == Need(command)
  {
    need := {};
    var i := 0;
    while i < |command| - 1
      invariant 0 <= i && (i == 0 || i < |command|)
      invariant need == NeedBefore(command, i)
    {
      NeedBeforeNext(command, i);
      if command[i] == '%' {
        match command[i + 1] {
          case 'd' => need := need + {NeedDest};
          case 'D' => need := need + {NeedDest};
          case 's' =>
            need := need + {NeedEntries};
            if i < |command| - 2 {
              match command[i + 2] {
                case 'p' => need := need + {NeedPath};
                case 'f' => need := need + {NeedFilePart};
                case _ => need := need + {NeedUri};
              }
            } else {
              need := need + {NeedUri};
            }
          case _ =>
        }
      }
      i := i + 1;
    }
  }

  lemma NeedBeforeNext(command: string, i: nat)
    requires i + 1 < |command|
    ensures NeedBefore(command, i + 1) == NeedBefore(command, i) + NeedAt(command, i)
  {
  }

  lemma NeedAllSnoc(commands: seq<Command>, c: Command)
    ensures NeedAll(commands + [c]) == NeedAll(commands) + Need(c.text)
  {
    var more := commands + [c];
    assert forall k :: 0 <= k < |commands| ==> more[k] == commands[k];
    assert more[|commands|] == c;
    forall f | f in NeedAll(commands) + Need(c.text)
      ensures f in NeedAll(more)
    {
      if f in NeedAll(commands) {
        var k :| 0 <= k < |commands| && f in Need(commands[k].text);
        assert f in Need(more[k].text);
      } else {
        assert f in Need(more[|commands|].text);
      }
    }
  }
}
