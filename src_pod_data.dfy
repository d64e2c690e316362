/** The pod queries of the copy of the root package kept under src/. */
module SrcPodData {

  import opened Cluster
  import RootPods

  /** Pod `j` is the first in list order whose name is `name`. */
  predicate IsFirstMatch(pods: seq<Pod>, name: string, j: nat) {
    j < |pods| && pods[j].name == name && forall k :: 0 <= k < j ==> pods[k].name != name
  }

  /**
   * The detail of the first pod in the cluster-wide listing whose name is `selectedPod`,
   * or six empty strings and no containers when no pod has that name.
   */
  method GetPodDetail(pods: seq<Pod>, selectedPod: string) returns (d: RootPods.PodDetail)
    ensures (forall k :: 0 <= k < |pods| ==> pods[k].name != selectedPod) ==>
      d == RootPods.PodDetail("", "", "", "", "", "", [])
    ensures forall j: nat :: IsFirstMatch(pods, selectedPod, j) ==> RootPods.Describes(d, pods[j])
  {
    for i := 0 to |pods|
      invariant forall k :: 0 <= k < i ==> pods[k].name != selectedPod
    {
      if pods[i].name == selectedPod {
        d := RootPods.GetPodDetail(pods[i]);
        assert forall j: nat :: IsFirstMatch(pods, selectedPod, j) ==> j == i;
        return;
      }
    }
    d := RootPods.PodDetail("", "", "", "", "", "", []);
  }
}
