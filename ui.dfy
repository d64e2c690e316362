/**
 * The parts of the internal/ui package that compute something: the search box, the
 * labelling of the ten exec buttons after a pod is selected, and what the exec window
 * shows after a command is submitted. Widgets are reduced to the state those parts change.
 */
module Ui {

  import opened Wrappers
  import opened Text
  import opened Cluster
  import Utils
  import K8s

  // ---------------------------------------------------------------- search box

  /**
   * Submitting the search text: nothing without a text or without a selected namespace;
   * otherwise the names the namespace's listing (`listing`) yields that contain the text,
   * in listing order.
   */
  method InputOnSubmitted(inputText: string, selectedNamespace: string, listing: Listing<Pod>)
    returns (podData: seq<string>)
    ensures inputText == "" || selectedNamespace == "" ==> podData == []
    ensures inputText != "" && selectedNamespace != "" && listing.Listed? ==>
      podData == KeepContaining(PodNames(listing.items), inputText)
    ensures inputText != "" && selectedNamespace != "" && listing.ListFailed? ==>
      podData == KeepContaining([listing.error], inputText)
    ensures forall i :: 0 <= i < |podData| ==> IsSubstring(inputText, podData[i])
    ensures inputText != "" && selectedNamespace != "" && listing.Listed? ==>
      && (forall p :: p in listing.items && IsSubstring(inputText, p.name) ==> p.name in podData)
      && IsSubsequence(podData, PodNames(listing.items))
  {
    podData := [];
    if inputText == "" {
      return;
    }
    if selectedNamespace != "" {
      podData := K8s.GetPodDataWithNamespace(listing);
      var inputTextList: seq<string> := [];
      for i := 0 to |podData|
        invariant inputTextList == KeepContaining(podData[..i], inputText)
      {
        assert podData[..i + 1][..i] == podData[..i];
        if Contains(podData[i], inputText) {
          inputTextList := inputTextList + [podData[i]];
        }
      }
      assert podData[..|podData|] == podData;
      KeepContainingSound(podData, inputText);
      KeepContainingComplete(podData, inputText);
      KeepContainingOrdered(podData, inputText);
      if listing.Listed? {
        assert podData == PodNames(listing.items);
        assert forall p :: p in listing.items ==> p.name in podData;
      }
      podData := inputTextList;
      return;
    } else {
      return;
    }
  }

  // ---------------------------------------------------------------- exec buttons

  /** The state of a button the labelling changes: its text and whether it is hidden. */
  class ExecButton {
    var text: string
    var hidden: bool

    /** A new button shows its name. */
    constructor (name: string)
      ensures text == name && !hidden
    {
      text := name;
      hidden := false;
    }

    method SetText(t: string)
      modifies this
      ensures text == t && hidden == old(hidden)
    {
      text := t;
    }

    method Show()
      modifies this
      ensures !hidden && text == old(text)
    {
      hidden := false;
    }
  }

  /** The number of exec buttons. */
  const ExecButtonCount: nat := 10

  /** Ten distinct new buttons, each labelled `buttonName`. */
  method CreateBaseExecIconButton(buttonName: string) returns (buttons: array<ExecButton>)
    ensures fresh(buttons) && buttons.Length == ExecButtonCount
    ensures forall i :: 0 <= i < buttons.Length ==> fresh(buttons[i])
    ensures forall i :: 0 <= i < buttons.Length ==> buttons[i].text == buttonName && !buttons[i].hidden
    ensures forall i, j :: 0 <= i < j < buttons.Length ==> buttons[i] != buttons[j]
  {
    var placeholder := new ExecButton(buttonName);
    buttons := new ExecButton[ExecButtonCount](_ => placeholder);
    for i := 0 to ExecButtonCount
      invariant forall k :: 0 <= k < i ==> fresh(buttons[k])
      invariant forall k :: 0 <= k < i ==> buttons[k].text == buttonName && !buttons[k].hidden
      invariant forall k, j :: 0 <= k < j < i ==> buttons[k] != buttons[j]
    {
      var button := new ExecButton(buttonName);
      buttons[i] := button;
    }
  }

  /** How many buttons a pod with `n` containers labels: one per container, at most ten. */
  function LabelledCount(n: nat): (count: nat)
    ensures count <= n && count <= ExecButtonCount
    ensures count == n || count == ExecButtonCount
  {
    if n < ExecButtonCount then n else ExecButtonCount
  }

  /**
   * After a pod is selected, button i takes the name of container i and is shown, for the
   * first ten containers at most; the loop stops after index 9. Other buttons keep their state.
   */
  method LabelExecButtons(execButtons: array<ExecButton>, newContainers: seq<string>)
    requires LabelledCount(|newContainers|) <= execButtons.Length
    requires forall i, j :: 0 <= i < j < execButtons.Length ==> execButtons[i] != execButtons[j]
    modifies set i | 0 <= i < execButtons.Length :: execButtons[i]
    ensures forall i :: 0 <= i < LabelledCount(|newContainers|) ==>
      execButtons[i].text == newContainers[i] && !execButtons[i].hidden
    ensures forall i :: LabelledCount(|newContainers|) <= i < execButtons.Length ==>
      execButtons[i].text == old(execButtons[i].text) && execButtons[i].hidden == old(execButtons[i].hidden)
  {
    var i := 0;
    while i < |newContainers|
      invariant 0 <= i <= |newContainers| && i < ExecButtonCount
      invariant forall k :: 0 <= k < i ==> execButtons[k].text == newContainers[k] && !execButtons[k].hidden
      invariant forall k :: i <= k < execButtons.Length ==>
        execButtons[k].text == old(execButtons[k].text) && execButtons[k].hidden == old(execButtons[k].hidden)
    {
      execButtons[i].SetText(newContainers[i]);
      execButtons[i].Show();
      if i == 9 {
        break;
      }
      i := i + 1;
    }
  }

  // ---------------------------------------------------------------- exec window

  /**
   * Submitting a command in the exec window of the container named `buttonText`: the
   * command runs without standard input and the window shows its output with the
   * terminal escape sequences removed (an executor error leaves the output empty).
   */
  method OnCommandSubmitted(buttonText: string, command: string,
                            executorError: Option<string>, stream: K8s.StreamOutcome)
    returns (options: K8s.ExecOptions, outputLabel: string)
    ensures options.command == ["sh", "-c", command]
    ensures options.container == buttonText && !options.stdin
    ensures executorError.Some? ==> outputLabel == ""
    ensures executorError.None? ==>
      outputLabel == Utils.RemoveAnsiEscapeCodes(K8s.CombinedOutput(stream))
  {
    var commandOutput, err;
    options, commandOutput, err := K8s.ExecCmd(buttonText, command, false, executorError, stream);
    commandOutput := Utils.RemoveAnsiEscapeCodes(commandOutput);
    outputLabel := commandOutput;
  }

  /** Neither half of the hint holds an escape character. */
  lemma HintPiecesPlain()
    ensures Utils.Esc !in K8s.HintNotice
    ensures Utils.Esc !in K8s.HintAdvice
  {
  }

  /** The hint line neither holds an escape character nor can complete one. */
  lemma HintIsPlain()
    ensures Utils.IsPlainTail(K8s.TooLongHint + "\n")
  {
    HintPiecesPlain();
  }

  /** After a deadline error the window ends with the hint, whatever escapes the command wrote. */
  lemma TimeoutHintDisplayed(stream: K8s.StreamOutcome)
    requires stream.error == Some(K8s.DeadlineExceeded)
    ensures Utils.RemoveAnsiEscapeCodes(K8s.CombinedOutput(stream)) ==
      Utils.RemoveAnsiEscapeCodes(stream.stdout + stream.stderr) + K8s.TooLongHint + "\n"
  {
    var tail := K8s.TooLongHint + "\n";
    HintIsPlain();
    K8s.ExecTimeoutShowsHint(stream);
    assert K8s.CombinedOutput(stream) == (stream.stdout + stream.stderr) + tail;
    Utils.RemoveAnsiAppendPlain(stream.stdout + stream.stderr, tail);
  }
}
