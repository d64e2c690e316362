/**
 * The cluster queries of the internal/k8s package. Every List or Get call is replaced by the
 * answer the cluster gives it (a Listing, a Pod, a Result), and the remote exec stream by a
 * StreamOutcome: the bytes it writes to standard output and standard error and the error it
 * ends with. What the package does with those answers is modelled step by step.
 */
module K8s {

  import opened Wrappers
  import opened Text
  import opened Cluster

  // ---------------------------------------------------------------- listings

  /** The pod names of a namespace in list order, or a single element holding the error's text. */
  method GetPodDataWithNamespace(listing: Listing<Pod>) returns (podData: seq<string>)
    ensures listing.ListFailed? ==> podData == [listing.error]
    ensures listing.Listed? ==>
      && |podData| == |listing.items|
      && forall i :: 0 <= i < |podData| ==> podData[i] == listing.items[i].name
  {
    podData := [];
    match listing {
      case ListFailed(error) =>
        podData := podData + [error];
      case Listed(items) =>
        for i := 0 to |items|
          invariant |podData| == i
          invariant forall k :: 0 <= k < i ==> podData[k] == items[k].name
        {
          podData := podData + [items[i].name];
        }
    }
  }

  /** The namespace names in list order, or a single element holding the error's text. */
  method GetNamespaces(listing: Listing<Namespace>) returns (namespaceList: seq<string>)
    ensures listing.ListFailed? ==> namespaceList == [listing.error]
    ensures listing.Listed? ==>
      && |namespaceList| == |listing.items|
      && forall i :: 0 <= i < |namespaceList| ==> namespaceList[i] == listing.items[i].name
  {
    namespaceList := [];
    match listing {
      case ListFailed(error) =>
        namespaceList := namespaceList + [error];
      case Listed(items) =>
        for i := 0 to |items|
          invariant |namespaceList| == i
          invariant forall k :: 0 <= k < i ==> namespaceList[k] == items[k].name
        {
          namespaceList := namespaceList + [items[i].name];
        }
    }
  }

  // ---------------------------------------------------------------- pod age

  /** int(math.Trunc(age.Hours())) for an age of whole seconds: hours truncated toward zero. */
  function WholeHours(seconds: int): int {
    if seconds >= 0 then seconds / 3600 else -((-seconds) / 3600)
  }

  /** The number of whole days shown for an age, or None when the age is shown as it is. */
  function AgeInDays(seconds: int): (days: Option<nat>)
    ensures days.Some? <==> seconds >= 86400
    ensures days.Some? ==> days.value * 86400 <= seconds < (days.value + 1) * 86400
  {
    var hours := WholeHours(seconds);
    if hours >= 24 then
      var h := seconds / 3600;
      assert seconds == 3600 * (24 * (h / 24) + h % 24) + seconds % 3600;
      Some(hours / 24)
    else
      None
  }

  /**
   * The age column: the whole number of days followed by "d" once the pod is 24 hours old,
   * otherwise the duration's own text.
   */
  function PodAge(age: Age): (podAge: string)
    ensures age.seconds < 86400 ==> podAge == age.rendered
    ensures age.seconds >= 86400 ==>
      && |podAge| >= 2 && podAge[|podAge| - 1] == 'd'
      && AllDigits(podAge[..|podAge| - 1])
      && ParseDecimal(podAge[..|podAge| - 1]) * 86400 <= age.seconds
      && age.seconds < (ParseDecimal(podAge[..|podAge| - 1]) + 1) * 86400
      && (|podAge| > 2 ==> podAge[0] != '0')
  {
    match AgeInDays(age.seconds)
    case None => age.rendered
    case Some(days) =>
      var r := Decimal(days) + "d";
      assert r[..|r| - 1] == Decimal(days);
      assert r[0] == Decimal(days)[0];
      ParseDecimalOfDecimal(days);
      r
  }

  /** Ages just under a day keep their text; 47 hours shows as one day, 48 hours as two. */
  lemma PodAgeExamples(rendered: string)
    ensures PodAge(Age(86399, rendered)) == rendered
    ensures PodAge(Age(47 * 3600, rendered)) == "1d"
    ensures PodAge(Age(48 * 3600, rendered)) == "2d"
    ensures PodAge(Age(-90000, rendered)) == rendered
  {
    assert Decimal(1) == "1";
    assert Decimal(2) == "2";
  }

  // ---------------------------------------------------------------- pod detail

  /** Phase, age, node and the container names in declaration order of the pod the Get call returned. */
  method GetPodDetail(pod: Pod) returns (phase: string, podAge: string, nodeName: string, containers: seq<string>)
    ensures phase == pod.phase && nodeName == pod.nodeName
    ensures podAge == PodAge(pod.age)
    ensures |containers| == |pod.containers|
    ensures forall i :: 0 <= i < |containers| ==> containers[i] == pod.containers[i].name
  {
    podAge := PodAge(pod.age);
    containers := [];
    for i := 0 to |pod.containers|
      invariant |containers| == i
      invariant forall k :: 0 <= k < i ==> containers[k] == pod.containers[k].name
    {
      containers := containers + [pod.containers[i].name];
    }
    phase := pod.phase;
    nodeName := pod.nodeName;
  }

  /** One line per event, in list order: the first timestamp, a space, the message. */
  method GetPodEvents(events: seq<Event>) returns (podEvents: seq<string>)
    ensures |podEvents| == |events|
    ensures forall i :: 0 <= i < |events| ==>
      && podEvents[i] == events[i].firstTimestamp + " " + events[i].message
      && IsSubstring(events[i].message, podEvents[i])
  {
    podEvents := [];
    for i := 0 to |events|
      invariant |podEvents| == i
      invariant forall k :: 0 <= k < i ==>
        && podEvents[k] == events[k].firstTimestamp + " " + events[k].message
        && IsSubstring(events[k].message, podEvents[k])
    {
      var line := events[i].firstTimestamp + " " + events[i].message;
      SubstringOfConcat(events[i].message, events[i].firstTimestamp + " ", events[i].message, "");
      assert events[i].firstTimestamp + " " + events[i].message + "" == line;
      podEvents := podEvents + [line];
    }
  }

  // ---------------------------------------------------------------- volumes

  function NameLine(m: VolumeMount): string {
    "- name: " + m.name + "\n"
  }

  function PathLine(m: VolumeMount): string {
    "  mountPath: " + m.mountPath + "\n"
  }

  /** The two lines that describe one volume mount. */
  function MountLines(m: VolumeMount): string {
    NameLine(m) + PathLine(m)
  }

  function MountLineSeq(mounts: seq<VolumeMount>): seq<string> {
    seq(|mounts|, i requires 0 <= i < |mounts| => MountLines(mounts[i]))
  }

  /** The lines of all mounts of a container, in order. */
  function MountsText(mounts: seq<VolumeMount>): string {
    Concat(MountLineSeq(mounts))
  }

  function ContainerHeader(c: Container): string {
    "container name: " + c.name + "\n"
  }

  /** What follows the header: the mounts and a blank line, or a note that there are none. */
  function ContainerBody(c: Container): string {
    if |c.volumeMounts| == 0 then "- no volume mounts\n" else MountsText(c.volumeMounts) + "\n"
  }

  /** The block for one container: its header, then its body. */
  function ContainerBlock(c: Container): string {
    ContainerHeader(c) + ContainerBody(c)
  }

  function Blocks(cs: seq<Container>): seq<string> {
    seq(|cs|, i requires 0 <= i < |cs| => ContainerBlock(cs[i]))
  }

  /** The volumes report: the blocks of all containers, in order. */
  function VolumesText(cs: seq<Container>): string {
    Concat(Blocks(cs))
  }

  /** Appends the two lines of each mount, in order (the inner loop of the volumes report). */
  method AppendMountLines(slice: seq<string>, mounts: seq<VolumeMount>) returns (out: seq<string>)
    ensures Concat(out) == Concat(slice) + MountsText(mounts)
  {
    out := slice;
    assert MountLineSeq(mounts)[..0] == [];
    for mi := 0 to |mounts|
      invariant Concat(out) == Concat(slice) + Concat(MountLineSeq(mounts)[..mi])
    {
      var m := mounts[mi];
      MountStep(out, slice, mounts, mi);
      out := out + [NameLine(m), PathLine(m)];
    }
    assert MountLineSeq(mounts)[..|mounts|] == MountLineSeq(mounts);
  }

  /**
   * The volumes report of the pod the Get call answered with, or the error: the Get call's
   * error wrapped as "failed to get pod: ...", or "no containers found in the pod".
   */
  method GetPodVolumes(get: Result<Pod>) returns (podVolumes: string, err: Option<string>)
    ensures get.Failure? ==> podVolumes == "" && err == Some("failed to get pod: " + get.error)
    ensures get.Success? && |get.value.containers| == 0 ==>
      podVolumes == "" && err == Some("no containers found in the pod")
    ensures get.Success? && |get.value.containers| > 0 ==>
      err == None && podVolumes == VolumesText(get.value.containers)
  {
    if get.Failure? {
      return "", Some("failed to get pod: " + get.error);
    }
    var cs := get.value.containers;
    if |cs| == 0 {
      return "", Some("no containers found in the pod");
    }
    var podVolumeSlice: seq<string> := [];
    for ci := 0 to |cs|
      invariant Concat(podVolumeSlice) == Concat(Blocks(cs)[..ci])
    {
      var c := cs[ci];
      ghost var before := Concat(podVolumeSlice);
      BlockStep(cs, ci, before);
      ConcatSnoc(podVolumeSlice, ContainerHeader(c));
      podVolumeSlice := podVolumeSlice + [ContainerHeader(c)];
      if |c.volumeMounts| == 0 {
        NoMountsStep(podVolumeSlice, c, before);
        podVolumeSlice := podVolumeSlice + ["- no volume mounts\n"];
      } else {
        podVolumeSlice := AppendMountLines(podVolumeSlice, c.volumeMounts);
        MountsDoneStep(podVolumeSlice, c, before);
        podVolumeSlice := podVolumeSlice + ["\n"];
      }
    }
    assert Blocks(cs)[..|cs|] == Blocks(cs);
    podVolumes := Concat(podVolumeSlice);
    err := None;
  }

  lemma MountStep(out: seq<string>, slice: seq<string>, mounts: seq<VolumeMount>, mi: nat)
    requires mi < |mounts|
    requires Concat(out) == Concat(slice) + Concat(MountLineSeq(mounts)[..mi])
    ensures Concat(out + [NameLine(mounts[mi]), PathLine(mounts[mi])]) ==
      Concat(slice) + Concat(MountLineSeq(mounts)[..mi + 1])
  {
    var m := mounts[mi];
    assert MountLineSeq(mounts)[mi] == NameLine(m) + PathLine(m);
    ConcatPairStep(out, slice, MountLineSeq(mounts), mi, NameLine(m), PathLine(m));
  }

  lemma NoMountsStep(slice: seq<string>, c: Container, before: string)
    requires |c.volumeMounts| == 0
    requires Concat(slice) == before + ContainerHeader(c)
    ensures Concat(slice + ["- no volume mounts\n"]) == before + ContainerBlock(c)
  {
    ConcatSnoc(slice, "- no volume mounts\n");
    assert ContainerBody(c) == "- no volume mounts\n";
  }

  lemma MountsDoneStep(slice: seq<string>, c: Container, before: string)
    requires |c.volumeMounts| > 0
    requires Concat(slice) == before + ContainerHeader(c) + MountsText(c.volumeMounts)
    ensures Concat(slice + ["\n"]) == before + ContainerBlock(c)
  {
    ConcatSnoc(slice, "\n");
    assert ContainerBody(c) == MountsText(c.volumeMounts) + "\n";
  }

  lemma BlockStep(cs: seq<Container>, ci: nat, before: string)
    requires ci < |cs|
    requires before == Concat(Blocks(cs)[..ci])
    ensures Concat(Blocks(cs)[..ci + 1]) == before + ContainerBlock(cs[ci])
  {
    ConcatPrefixStep(Blocks(cs), ci);
  }

  /** The report grows container by container: one more container adds exactly its block at the end. */
  lemma VolumesTextAppend(cs: seq<Container>, c: Container)
    ensures VolumesText(cs + [c]) == VolumesText(cs) + ContainerBlock(c)
  {
    var block := ContainerBlock(c);
    assert Blocks(cs + [c]) == Blocks(cs) + [block];
    ConcatAppend(Blocks(cs), [block]);
    assert [block][..0] == [];
  }

  /** The report names every container of the pod. */
  lemma VolumesTextListsContainer(cs: seq<Container>, i: nat)
    requires i < |cs|
    ensures IsSubstring(ContainerHeader(cs[i]), VolumesText(cs))
  {
    var parts := Blocks(cs);
    assert parts[i] == ContainerHeader(cs[i]) + ContainerBody(cs[i]);
    PrefixOfPartInConcat(parts, i, ContainerHeader(cs[i]), ContainerBody(cs[i]));
  }

  /** The report lists every volume mount of every container, with its name and mount path. */
  lemma VolumesTextListsMount(cs: seq<Container>, i: nat, k: nat)
    requires i < |cs| && k < |cs[i].volumeMounts|
    ensures IsSubstring(MountLines(cs[i].volumeMounts[k]), VolumesText(cs))
  {
    var parts := Blocks(cs);
    var lines := MountLineSeq(cs[i].volumeMounts);
    assert lines[k] == MountLines(cs[i].volumeMounts[k]);
    assert parts[i] == ContainerHeader(cs[i]) + Concat(lines) + "\n";
    NestedPartInConcat(parts, i, ContainerHeader(cs[i]), lines, k, "\n");
  }

  // ---------------------------------------------------------------- namespace of a pod

  /**
   * The namespace of the pod named `podName` among all pods of the cluster: the flat
   * name, namespace, name, namespace, ... list is folded into a map (later entries
   * overwrite earlier ones) and looked up with "" for a missing name.
   */
  method GetPodNamespace(pods: seq<Pod>, podName: string) returns (podNamespace: string)
    ensures podNamespace == LastNamespace(pods, podName)
  {
    var podNameWithNamespace: map<string, string> := map[];
    var podsItemsList: seq<string> := [];
    for p := 0 to |pods|
      invariant |podsItemsList| == 2 * p
      invariant forall k :: 0 <= k < p ==> podsItemsList[2 * k] == pods[k].name
      invariant forall k :: 0 <= k < p ==> podsItemsList[2 * k + 1] == pods[k].namespace
    {
      podsItemsList := podsItemsList + [pods[p].name, pods[p].namespace];
    }
    var i := 0;
    while i < |podsItemsList|
      invariant 0 <= i <= |podsItemsList| && i % 2 == 0
      invariant podNameWithNamespace == NamespaceMap(pods[..i / 2])
    {
      ghost var p := i / 2;
      assert podsItemsList[2 * p] == pods[p].name && podsItemsList[2 * p + 1] == pods[p].namespace;
      assert pods[..p + 1][..p] == pods[..p];
      podNameWithNamespace := podNameWithNamespace[podsItemsList[i] := podsItemsList[i + 1]];
      i := i + 2;
    }
    assert pods[..i / 2] == pods;
    NamespaceMapLookup(pods, podName);
    podNamespace := if podName in podNameWithNamespace then podNameWithNamespace[podName] else "";
  }

  // ---------------------------------------------------------------- exec

  /** The exec request's options. */
  datatype ExecOptions = ExecOptions(
    command: seq<string>,
    stdin: bool,
    stdout: bool,
    stderr: bool,
    tty: bool,
    container: string)

  /** What the remote command stream does: what it writes to each buffer and the error it ends with, if any. */
  datatype StreamOutcome = StreamOutcome(stdout: string, stderr: string, error: Option<string>)

  /** An in-memory output buffer (bytes.Buffer), written to at its end. */
  class Buffer {
    var contents: string

    constructor ()
      ensures contents == ""
    {
      contents := "";
    }

    method WriteString(s: string)
      modifies this
      ensures contents == old(contents) + s
    {
      contents := contents + s;
    }
  }

  /** The text of the error the stream ends with when the five-second deadline passes. */
  const DeadlineExceeded: string := "context deadline exceeded"

  /** The first half of the hint: a new line and the INFO notice. */
  const HintNotice: string := "\nINFO: command took too long"

  /** The second half of the hint: the advice. */
  const HintAdvice: string := " to complete, try another command."

  /** What the user is told instead of the deadline error. */
  const TooLongHint: string := HintNotice + HintAdvice

  /** What is appended to standard error after the stream ends with `error` (Fprintln adds the newline). */
  function StreamErrorNote(error: Option<string>): string {
    match error
    case None => ""
    case Some(errorMsg) => if errorMsg == DeadlineExceeded then TooLongHint + "\n" else "\n" + errorMsg + "\n"
  }

  /** Runs the stream into the two buffers, then reports its error, if any, on standard error. */
  method ExecuteCommand(stream: StreamOutcome, stdoutBuffer: Buffer, stderrBuffer: Buffer)
    requires stdoutBuffer != stderrBuffer
    modifies stdoutBuffer, stderrBuffer
    ensures stdoutBuffer.contents == old(stdoutBuffer.contents) + stream.stdout
    ensures stderrBuffer.contents == old(stderrBuffer.contents) + stream.stderr + StreamErrorNote(stream.error)
  {
    stdoutBuffer.WriteString(stream.stdout);
    stderrBuffer.WriteString(stream.stderr);
    if stream.error.Some? {
      var errorMsg := stream.error.value;
      if errorMsg == DeadlineExceeded {
        errorMsg := TooLongHint;
        stderrBuffer.WriteString(errorMsg + "\n");
      } else {
        stderrBuffer.WriteString("\n" + errorMsg + "\n");
      }
    }
  }

  /** The text an exec returns when the executor could be built: standard output, then standard error. */
  function CombinedOutput(stream: StreamOutcome): string {
    stream.stdout + stream.stderr + StreamErrorNote(stream.error)
  }

  /**
   * Runs `sh -c command` in the container. `executorError` is the error building the
   * executor failed with, if it failed; `stream` is what the remote command then does.
   * Stream errors never reach the caller: they are folded into the output.
   */
  method ExecCmd(containerName: string, command: string, hasStdin: bool,
                 executorError: Option<string>, stream: StreamOutcome)
    returns (options: ExecOptions, output: string, err: Option<string>)
    ensures options.command == ["sh", "-c", command]
    ensures options.stdin == hasStdin && options.stdout && options.stderr && !options.tty
    ensures options.container == containerName
    ensures executorError.Some? ==> output == "" && err == executorError
    ensures executorError.None? ==> err == None && output == CombinedOutput(stream)
  {
    var cmd := ["sh", "-c", command];
    options := ExecOptions(cmd, hasStdin, true, true, false, containerName);
    if executorError.Some? {
      return options, "", executorError;
    }
    var stdoutBuffer := new Buffer();
    var stderrBuffer := new Buffer();
    ExecuteCommand(stream, stdoutBuffer, stderrBuffer);
    output := stdoutBuffer.contents + stderrBuffer.contents;
    err := None;
  }

  /** A command that runs past the deadline yields the hint rather than the raw deadline error. */
  lemma ExecTimeoutShowsHint(stream: StreamOutcome)
    requires stream.error == Some(DeadlineExceeded)
    ensures IsSubstring(TooLongHint, CombinedOutput(stream))
    ensures CombinedOutput(stream) == stream.stdout + stream.stderr + TooLongHint + "\n"
  {
    SubstringOfConcat(TooLongHint, stream.stdout + stream.stderr, TooLongHint, "\n");
    assert stream.stdout + stream.stderr + TooLongHint + "\n" == CombinedOutput(stream);
  }

  /** Any other stream error is shown on a line of its own after everything the command wrote. */
  lemma ExecOtherErrorShown(stream: StreamOutcome, errorMsg: string)
    requires stream.error == Some(errorMsg) && errorMsg != DeadlineExceeded
    ensures IsSubstring(errorMsg, CombinedOutput(stream))
    ensures CombinedOutput(stream)[..|stream.stdout| + |stream.stderr|] == stream.stdout + stream.stderr
  {
    SubstringOfConcat(errorMsg, stream.stdout + stream.stderr + "\n", errorMsg, "\n");
    assert stream.stdout + stream.stderr + "\n" + errorMsg + "\n" == CombinedOutput(stream);
  }

  /** Without a stream error the output is exactly what the command wrote, standard output first. */
  lemma ExecCleanRun(stream: StreamOutcome)
    requires stream.error.None?
    ensures CombinedOutput(stream) == stream.stdout + stream.stderr
    ensures IsSubstring(stream.stdout, CombinedOutput(stream)) && IsSubstring(stream.stderr, CombinedOutput(stream))
  {
    SubstringOfConcat(stream.stdout, "", stream.stdout, stream.stderr);
    SubstringOfConcat(stream.stderr, stream.stdout, stream.stderr, "");
    assert "" + stream.stdout + stream.stderr == CombinedOutput(stream);
    assert stream.stdout + stream.stderr + "" == CombinedOutput(stream);
  }
}
