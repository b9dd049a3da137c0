/** Behaviour trees and tasks (src/core/types.h). */
module Behavior {

  datatype Kind = SEQUENCE | SELECTOR | PARALLEL | ACTION | CONDITION | SUBTREE

  /** The fields of `BehaviorNode` that execution reads. */
  datatype Node = Node(
    name: string,
    kind: Kind,
    params: map<string, string>,
    children: seq<Node>,
    expression: string,
    command: string,
    constants: map<string, string>,
    inits: map<string, string>,
    observation: map<string, string>)

  datatype Task = Task(segmentId: string, taskId: string, satelliteId: string, params: map<string, string>)
}
