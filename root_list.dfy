/** The search box of the older root package. */
module RootList {

  import opened Text
  import opened Cluster
  import K8s

  /**
   * Submitting the search text: an empty text asks the cluster again for every pod
   * (`relisted` is what that List call answers); any other text keeps, in order, the names
   * of `podData` that contain it.
   */
  method InputOnSubmitted(inputText: string, relisted: Listing<Pod>, podData: seq<string>) returns (result: seq<string>)
    ensures inputText == "" && relisted.Listed? ==> result == PodNames(relisted.items)
    ensures inputText == "" && relisted.ListFailed? ==> result == [relisted.error]
    ensures inputText != "" ==> result == KeepContaining(podData, inputText)
    ensures inputText != "" ==>
      && (forall i :: 0 <= i < |result| ==> IsSubstring(inputText, result[i]))
      && (forall x :: x in podData && IsSubstring(inputText, x) ==> x in result)
      && IsSubsequence(result, podData)
  {
    if inputText == "" {
      result := K8s.GetPodDataWithNamespace(relisted);
      return;
    }
    var inputTextList: seq<string> := [];
    for i := 0 to |podData|
      invariant inputTextList == KeepContaining(podData[..i], inputText)
    {
      assert podData[..i + 1][..i] == podData[..i];
      if Contains(podData[i], inputText) {
        inputTextList := inputTextList + [podData[i]];
      }
    }
    assert podData[..|podData|] == podData;
    result := inputTextList;
    KeepContainingSound(podData, inputText);
    KeepContainingComplete(podData, inputText);
    KeepContainingOrdered(podData, inputText);
  }
}
