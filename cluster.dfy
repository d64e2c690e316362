/**
 * The cluster objects the inspector reads, as values: the results of the cluster client's
 * List and Get calls are inputs to the model rather than calls.
 */
module Cluster {

  datatype VolumeMount = VolumeMount(name: string, mountPath: string)

  datatype Container = Container(name: string, volumeMounts: seq<VolumeMount>)

  /**
   * A pod's age, time.Since(creation).Round(time.Second): a whole number of seconds
   * (negative when the creation time lies in the future), with the text Go's
   * Duration.String gives it, which the model takes as given.
   */
  datatype Age = Age(seconds: int, rendered: string)

  datatype Pod = Pod(
    name: string,
    namespace: string,
    phase: string,
    nodeName: string,
    age: Age,
    labels: map<string, string>,
    annotations: map<string, string>,
    containers: seq<Container>)

  datatype Namespace = Namespace(name: string)

  /**
   * An event whose timestamps are already rendered: FirstTimestamp.String() and
   * EventTime formatted with the layout "2006-01-02 15:04:05".
   */
  datatype Event = Event(firstTimestamp: string, eventTime: string, message: string)

  /** The answer to a List call: the items in the order the cluster returned them, or the error's text. */
  datatype Listing<T> = Listed(items: seq<T>) | ListFailed(error: string)

  /** The names of the listed pods, in list order. */
  function PodNames(pods: seq<Pod>): (names: seq<string>)
    ensures |names| == |pods|
  {
    seq(|pods|, i requires 0 <= i < |pods| => pods[i].name)
  }

  // ---------------------------------------------------------------- name -> namespace

  /**
   * The namespace of the last pod in `pods` whose name is `name`, or "" when there is none:
   * what the lookup in a name→namespace map filled in list order yields.
   */
  function LastNamespace(pods: seq<Pod>, name: string): string {
    if pods == [] then ""
    else if pods[|pods| - 1].name == name then pods[|pods| - 1].namespace
    else LastNamespace(pods[..|pods| - 1], name)
  }

  /** The map filled by writing name := namespace for each pod in list order (last write wins). */
  function NamespaceMap(pods: seq<Pod>): map<string, string> {
    if pods == [] then map[]
    else NamespaceMap(pods[..|pods| - 1])[pods[|pods| - 1].name := pods[|pods| - 1].namespace]
  }

  /** Looking a name up in the filled map, with Go's zero value "" for a missing key, is LastNamespace. */
  lemma {:induction false} NamespaceMapLookup(pods: seq<Pod>, name: string)
    ensures name in NamespaceMap(pods) <==> exists k :: 0 <= k < |pods| && pods[k].name == name
    ensures (if name in NamespaceMap(pods) then NamespaceMap(pods)[name] else "") == LastNamespace(pods, name)
  {
    if pods != [] {
      var init := pods[..|pods| - 1];
      NamespaceMapLookup(init, name);
      if pods[|pods| - 1].name != name {
        assert forall k :: 0 <= k < |init| ==> init[k] == pods[k];
      }
    }
  }

  /** When several pods share the name, the one latest in list order wins. */
  lemma {:induction false} LastNamespaceOfLastMatch(pods: seq<Pod>, name: string, j: nat)
    requires j < |pods| && pods[j].name == name
    requires forall k :: j < k < |pods| ==> pods[k].name != name
    ensures LastNamespace(pods, name) == pods[j].namespace
    decreases |pods|
  {
    if j < |pods| - 1 {
      LastNamespaceOfLastMatch(pods[..|pods| - 1], name, j);
    }
  }

  /** A name no pod carries maps to the empty namespace. */
  lemma {:induction false} LastNamespaceAbsent(pods: seq<Pod>, name: string)
    requires forall k :: 0 <= k < |pods| ==> pods[k].name != name
    ensures LastNamespace(pods, name) == ""
  {
    if pods != [] {
      LastNamespaceAbsent(pods[..|pods| - 1], name);
    }
  }
}
