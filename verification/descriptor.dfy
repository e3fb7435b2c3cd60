/** Filetype descriptors: how a type of file is recognised and what can be done with it. */
module Descriptors {
  import opened Actions
  import opened Options
  import opened Text

  datatype RecogCommand =
    | Or | And | BlockIn | BlockOut | MatchData | MatchHunk | FileName | FindString
    | Protection | Device | Directory | File | FileSize | Content | Comment

  /** One step of a recognition routine. */
  datatype RecogNode = RecogNode(cmd: RecogCommand, data: Option<string>)

  datatype Recog = Recog(nodes: seq<RecogNode>, pattern: Option<string>)

  datatype Descriptor = Descriptor(
    mimetype: Option<string>,
    description: Option<string>,
    priority: Long,
    recog: Option<Recog>,
    actions: seq<Action>)

  const NEW_DESCRIPTOR := Descriptor(None, None, 0, None, [])

  /** A descriptor in memory, with its actions in a list of nodes. */
  class MimeNode {
    var mimetype: Option<string>
    var description: Option<string>
    var priority: Long
    var recog: Option<Recog>
    var actions: seq<ActionNode>

    ghost predicate Valid()
      reads this
    {
      forall i, j :: 0 <= i < j < |actions| ==> actions[i] != actions[j]
    }

    ghost function Value(): (d: Descriptor)
      reads this, actions
      ensures |d.actions| == |actions|
    {
      Descriptor(mimetype, description, priority, recog, ActionValues(actions))
    }

    constructor ()
      ensures Valid() && Value() == NEW_DESCRIPTOR && actions == []
    {
      mimetype, description, priority, recog, actions := None, None, 0, None, [];
    }

    /** Puts an action at the end of the list. */
    method AddTail(an: ActionNode)
      requires Valid() && an !in actions
      modifies this`actions
      ensures Valid() && actions == old(actions) + [an]
      ensures Value() == old(Value()).(actions := old(Value().actions) + [old(an.Value())])
    {
      actions := actions + [an];
    }
  }

  ghost function ActionValues(nodes: seq<ActionNode>): (values: seq<Action>)
    reads nodes
    ensures |values| == |nodes|
    ensures forall i :: 0 <= i < |nodes| ==> values[i] == nodes[i].Value()
  {
    seq(|nodes|, i requires 0 <= i < |nodes| reads nodes => nodes[i].Value())
  }
}
