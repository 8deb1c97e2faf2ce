// Artifacts and their dependency graph (artifact/artifact.go, artifact/graph.go).
module Artifacts {
  import opened Digraphs
  import opened Sorting

  datatype Status =
    | Draft | Ready | Claimed | InProgress | Complete | Invalidated | Blocked | Pending | Active | Done

  datatype Artifact = Artifact(id: Id, status: Status, dependsOn: seq<Id>, files: seq<string>, version: int)

  type Items = map<Id, Artifact>

  // The map is keyed by the artifacts' own ids.
  ghost predicate Keyed(items: Items) {
    forall id :: id in items ==> items[id].id == id
  }

  // An edge leads from an artifact to each id in its DependsOn, known or not.
  ghost function Deps(items: Items): Digraph<Id> {
    map id | id in items :: items[id].dependsOn
  }
}
