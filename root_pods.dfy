/**
 * The pod queries of the older root package. The Get and List calls are replaced by the
 * pod or the events they answer with; their error paths end the program and are not modelled.
 */
module RootPods {

  import opened Wrappers
  import opened Text
  import opened Cluster
  import Utils

  /** The seven values the detail view shows for a pod. */
  datatype PodDetail = PodDetail(
    phase: string,
    age: string,
    namespace: string,
    labels: string,
    annotations: string,
    nodeName: string,
    containers: seq<string>)

  /** `d` shows `pod`: its own fields, its maps rendered one line per entry, its container names in order. */
  ghost predicate Describes(d: PodDetail, pod: Pod) {
    && d.phase == pod.phase
    && d.age == pod.age.rendered
    && d.namespace == pod.namespace
    && Utils.IsMapText(d.labels, pod.labels)
    && Utils.IsMapText(d.annotations, pod.annotations)
    && d.nodeName == pod.nodeName
    && |d.containers| == |pod.containers|
    && forall i :: 0 <= i < |d.containers| ==> d.containers[i] == pod.containers[i].name
  }

  /** The detail of the pod the Get call returned. */
  method GetPodDetail(pod: Pod) returns (d: PodDetail)
    ensures Describes(d, pod)
  {
    var containers: seq<string> := [];
    for i := 0 to |pod.containers|
      invariant |containers| == i
      invariant forall k :: 0 <= k < i ==> containers[k] == pod.containers[k].name
    {
      containers := containers + [pod.containers[i].name];
    }
    var labels := Utils.ConvertMapToString(pod.labels);
    var annotations := Utils.ConvertMapToString(pod.annotations);
    d := PodDetail(pod.phase, pod.age.rendered, pod.namespace, labels, annotations, pod.nodeName, containers);
  }

  // ---------------------------------------------------------------- events

  /** One event line: an arrow, the event time, a comma and a space, the message. */
  function EventLine(e: Event): string {
    "~> " + e.eventTime + ", " + e.message
  }

  /** Splits an event line back into its time and its message, at the first comma. */
  function ParseEventLine(line: string): Option<(string, string)> {
    if |line| < 3 || line[..3] != "~> " then None
    else
      var rest := line[3..];
      match IndexOf(rest, ',')
      case None => None
      case Some(p) =>
        if p + 1 < |rest| && rest[p + 1] == ' ' then Some((rest[..p], rest[p + 2..])) else None
  }

  /** An event time without a comma (the layout "2006-01-02 15:04:05" has none) reads back from its line. */
  lemma EventLineRoundTrip(e: Event)
    requires forall k :: 0 <= k < |e.eventTime| ==> e.eventTime[k] != ','
    ensures ParseEventLine(EventLine(e)) == Some((e.eventTime, e.message))
  {
    var line := EventLine(e);
    assert line[..3] == "~> ";
    var rest := line[3..];
    assert rest == e.eventTime + ", " + e.message;
    IndexOfAt(rest, ',', |e.eventTime|);
    assert rest[..|e.eventTime|] == e.eventTime;
    assert rest[|e.eventTime| + 2..] == e.message;
  }

  /** The events' lines in event order. */
  method GetPodEvents(events: seq<Event>) returns (podEvents: seq<string>)
    ensures |podEvents| == |events|
    ensures forall i :: 0 <= i < |events| ==> podEvents[i] == EventLine(events[i])
    ensures forall i :: 0 <= i < |events| && (forall k :: 0 <= k < |events[i].eventTime| ==> events[i].eventTime[k] != ',') ==>
      ParseEventLine(podEvents[i]) == Some((events[i].eventTime, events[i].message))
  {
    podEvents := [];
    for i := 0 to |events|
      invariant |podEvents| == i
      invariant forall k :: 0 <= k < i ==> podEvents[k] == EventLine(events[k])
    {
      podEvents := podEvents + ["~> " + events[i].eventTime + ", " + events[i].message];
    }
    forall i | 0 <= i < |events| && (forall k :: 0 <= k < |events[i].eventTime| ==> events[i].eventTime[k] != ',')
      ensures ParseEventLine(podEvents[i]) == Some((events[i].eventTime, events[i].message))
    {
      EventLineRoundTrip(events[i]);
    }
  }
}
