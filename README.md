# kview kernels in Dafny

kview is a desktop inspector for Kubernetes clusters. It lists pods and lets the user search them by name. For a selected pod it shows the phase, age, node, labels, annotations, events and volume mounts, and its exec window runs `sh -c <command>` in one of the pod's containers. Nearly all of the program is glue between the cluster client and the GUI toolkit. This project models the deterministic kernels inside that glue and proves what they compute.

The program exists twice. The older root package (`utils.go`, `pods.go`, `list.go`, `src/pod_data.go`) and the newer `internal/` packages each have their own copy of most kernels. Code duplicated between them is modelled once, and the table below cites every copy a member stands for. Each Dafny module follows one Go file:

| module | Go file |
|---|---|
| `Utils` | internal/utils/utils.go |
| `K8s` | internal/k8s/k8s.go |
| `Ui` | internal/ui/ui.go |
| `RootUtils` | utils.go |
| `RootPods` | pods.go (its copies in src/pod_data.go reuse it) |
| `RootList` | list.go |
| `SrcPodData` | src/pod_data.go |
| `Cluster` | the pod, namespace and event records read from the cluster, and the name→namespace lookup |
| `Text` | Go's `strings.Contains`, `strconv.Itoa` and `strings.Join(…, "")`, and the order-preserving search filter |
| `Wrappers` | `Option` and `Result` |

How the model maps Go onto Dafny:
- Cluster calls are replaced by their answers. A `List` call becomes a `Listing` (the items, or the error's text), and a `Get` call becomes a `Result<Pod>` or the pod itself.
- The exec stream becomes a `StreamOutcome`: what the remote command writes to standard output and standard error, and the error the stream ends with.
- Go's unspecified map iteration order is modelled by picking any key not yet visited. The map formatter is therefore specified up to the order of its lines.
- The regular expression `\x1b\[[0-9;]*[a-zA-Z]` is modelled as a hand-written scanner. The scanner is proved equal to a declarative "delete each leftmost match" definition.
- The exec's two `bytes.Buffer`s become objects of the class `K8s.Buffer`; the map formatter's buffer is a plain string in `Utils.ConvertMapToString`. The Fyne exec button becomes the class `Ui.ExecButton`, which keeps only its text and its visibility.

## Model

| member | source | states |
|---|---|---|
| Text.Contains | internal/utils/utils.go:24 | `strings.Contains(s, sub)` holds exactly when `sub` occurs in `s` at some index. |
| Text.Decimal | internal/k8s/k8s.go:115 | `strconv.Itoa` of a non-negative number is a non-empty numeral of digits with no leading zero. |
| Text.ParseDecimalOfDecimal | internal/k8s/k8s.go:115 | Reading a rendered number back gives the number. |
| Text.KeepContainingSound | list.go:103-108 | Every name the search keeps contains the search text. |
| Text.KeepContainingComplete | list.go:103-108 | Every name that contains the search text is kept. |
| Text.KeepContainingCount | list.go:103-108 | A name that contains the search text is kept as many times as it occurs in the input, repeated names included; any other name is kept zero times. The copy at internal/ui/ui.go:251-255 is the same loop. |
| Text.KeepContainingOrdered | list.go:103-108 | The kept names are a subsequence of the input, so their order is preserved. |
| Text.KeepContainingIdempotent | list.go:103-109 | Searching the result again with the same text changes nothing. |
| Text.ConcatAppend | internal/k8s/k8s.go:177 | Joining two lists of parts with "" is joining each list and concatenating the two texts. `K8s.VolumesTextAppend` is derived from it. |
| Cluster.NamespaceMapLookup | internal/k8s/k8s.go:219-222 | The name→namespace map filled in list order holds a name exactly when some pod has it. Looking a name up, with "" for a missing key, gives the namespace of the last pod with that name. |
| Cluster.LastNamespaceOfLastMatch | pods.go:94-97 | When several pods share a name, the namespace of the one latest in list order wins. |
| Cluster.LastNamespaceAbsent | pods.go:97 | A name no pod carries maps to the empty namespace. |
| Utils.ConvertMapToString | internal/utils/utils.go:10-16 | The output is one `key="value"` line per map entry, each followed by a newline. The lines appear in some order that lists every key exactly once. The copies at utils.go:10-16 and src/pod_data.go:102-108 are the same code. |
| Utils.KeyOrderCount | internal/utils/utils.go:12-14 | The formatter writes exactly as many lines as the map has entries. |
| Utils.EmptyMapText | internal/utils/utils.go:10-16 | The empty map formats to the empty string. |
| Utils.SingleEntryMapText | internal/utils/utils.go:13 | A one-entry map formats to exactly its one line. |
| Utils.KeyValueMapText | internal/utils/utils_test.go:7-15 | `{"key": "value"}` formats to `key="value"` and a newline, as the tests of both packages (also utils_test.go:7-15) expect. |
| Utils.MapTextRoundTrip | internal/utils/utils.go:10-16 | Suppose no key holds '=' or a newline and no value holds a newline. Then reading the output back line by line gives one pair per entry, with no key twice, and those pairs make up exactly the original map. |
| Utils.MapTextAmbiguous | internal/utils/utils.go:13 | The restriction above is needed. The map {k: `a"⏎b="c`} and the map {k: `a`, b: `c`} both format to `k="a"⏎b="c"⏎` (⏎ is a newline), so the text alone cannot tell them apart. |
| Utils.ContainsAny | internal/utils/utils.go:23-27 | The loop over the pattern list reports a match exactly when some pattern occurs in the checked text. |
| Utils.CheckForError | internal/utils/utils.go:19-30 | A nil slice gives `("", false)`. Otherwise only the first element is checked. It is flagged exactly when it contains "i/o timeout", "context deadline exceeded", "connection refused" or "Bad Request", and the message is then `Error: <element> (validate cluster access and restart)`. An unflagged result has an empty message. |
| Utils.CheckForErrorRecognisesEachPattern | internal/utils/utils_test.go:17-36 | Each of the four patterns on its own is flagged and echoed in the message. The text "...no error found..." gives `("", false)`. |
| Utils.ParamRunEnd | internal/utils/utils.go:38 | The `[0-9;]*` run found is maximal: every character in it is a parameter character, and the next one is not. |
| Utils.EscapeEnd | internal/utils/utils.go:38 | A match found at a position really is a match of the pattern there. Any match of the pattern at that position is the one found, so matches are unique. |
| Utils.RemoveAnsiEscapeCodes | internal/utils/utils.go:37-41 | The output is never longer than the input. An input without an ESC character comes back unchanged. |
| Utils.RemoveAnsiDeletesMatches | internal/utils/utils.go:38-39 | The scanner's output is the input with the leftmost, non-overlapping matches of the pattern deleted, scanning left to right. |
| Utils.RemoveAnsiSubsequence | internal/utils/utils.go:38-39 | The surviving characters keep their order: the output is a subsequence of the input. |
| Utils.RemoveAnsiUnchangedIff | internal/utils/utils.go:37-41 | The output equals the input exactly when the input contains no match of the pattern. |
| Utils.RemoveAnsiAppendPlain | internal/utils/utils.go:37-41 | Appending text that has no ESC and cannot complete a sequence commutes with stripping. That text is neither removed nor able to complete an earlier sequence. |
| RootUtils.CheckForError | utils.go:19-28 | The older classifier checks only the first element. It flags it exactly when it contains one of three patterns, "Bad Request" not among them, with the same message. |
| RootUtils.CheckForErrorFirstOnly | utils.go:20 | Elements after the first never affect the result. |
| RootUtils.BadRequestOnlyInNewerClassifier | utils.go:21-27 | "Bad Request" alone gives `("", false)` in the older classifier but is flagged by the newer one. |
| K8s.GetPodDataWithNamespace | internal/k8s/k8s.go:75-86 | A successful listing gives the pod names in list order. A failed one gives a single element, the error's text. The root package's listing at pods.go:19-29 and the success path at src/pod_data.go:20-30 are the same loop. |
| K8s.GetNamespaces | internal/k8s/k8s.go:89-102 | A successful listing gives the namespace names in list order. A failed one gives a single element, the error's text. |
| K8s.AgeInDays | internal/k8s/k8s.go:113-114 | An age shows in days exactly when it is at least 24 hours. The day count d satisfies d·86400 ≤ age < (d+1)·86400, so leftover hours are dropped. |
| K8s.PodAge | internal/k8s/k8s.go:110-116 | An age under a day keeps its duration text. From 24 hours on, the text is a numeral followed by "d", and the number it reads as is the whole number of days in the age. A numeral of more than one digit has no leading zero, so the text is the one `strconv.Itoa` gives. |
| K8s.PodAgeExamples | internal/k8s/k8s.go:113-115 | 23h59m59s keeps its text, 47 hours shows as "1d", 48 hours as "2d", and a negative age keeps its text. |
| K8s.GetPodDetail | internal/k8s/k8s.go:104-123 | The result is the phase, the age text above, the node name, and the container names in declaration order. |
| K8s.GetPodEvents | internal/k8s/k8s.go:143-149 | There is one line per event, in event order. Each line is the first timestamp, a space and the message, and contains the message. |
| K8s.AppendMountLines | internal/k8s/k8s.go:172-174 | The inner loop appends the `- name:` and `  mountPath:` lines of each mount, in mount order. |
| K8s.GetPodVolumes | internal/k8s/k8s.go:151-178 | A failed Get gives "" and `failed to get pod: <error>`. A pod without containers gives "" and "no containers found in the pod". Otherwise there is no error and the report has one block per container, in order. A block is the header, then "- no volume mounts" alone, or the mount lines followed by a blank line. |
| K8s.VolumesTextAppend | internal/k8s/k8s.go:163-176 | Each further container adds exactly its own block at the end of the report. |
| K8s.VolumesTextListsContainer | internal/k8s/k8s.go:163-164 | The report names every container of the pod. |
| K8s.VolumesTextListsMount | internal/k8s/k8s.go:172-174 | The report lists every volume mount of every container, with its name and mount path. |
| K8s.GetPodNamespace | internal/k8s/k8s.go:209-225 | The result is the namespace of the last pod in list order with the given name, or "" when there is none. The name/namespace pairs are read from the flat list two entries at a time. The copy at pods.go:84-100 is the same code. |
| K8s.Buffer.constructor | internal/k8s/k8s.go:288-289 | A new output buffer is empty. |
| K8s.Buffer.WriteString | internal/k8s/k8s.go:324 | A write appends its text at the end of the buffer. |
| K8s.ExecuteCommand | internal/k8s/k8s.go:308-329 | Each buffer receives what the command wrote to it. After the stream ends with an error, standard error also receives one of two texts. For "context deadline exceeded" it is the "command took too long" hint and a newline. For any other error it is a newline, the message and a newline. Without an error nothing more is written. |
| K8s.ExecCmd | internal/k8s/k8s.go:259-306 | The command vector is always `sh -c <command>`. Standard input is requested only when one is given, standard output and standard error always, no TTY. The target is the named container. If building the executor fails, the result is "" and that error. Otherwise there is no error and the result is standard output followed by standard error. |
| K8s.ExecTimeoutShowsHint | internal/k8s/k8s.go:320-324 | After a timeout the output is everything written, then the hint and a newline. The raw deadline error never appears in its place. |
| K8s.ExecOtherErrorShown | internal/k8s/k8s.go:325-327 | Any other stream error appears in the output after everything the command wrote. |
| K8s.ExecCleanRun | internal/k8s/k8s.go:303-305 | Without a stream error the output is exactly standard output followed by standard error. |
| RootPods.GetPodDetail | pods.go:31-45 | The detail shows the pod's phase, age text, namespace and node. Labels and annotations appear in the map formatter's format, and the container names in declaration order. |
| RootPods.EventLineRoundTrip | pods.go:50 | An event line is `~> <time>, <message>`. When the time has no comma, which the layout "2006-01-02 15:04:05" guarantees, the line splits back into its time and message. |
| RootPods.GetPodEvents | pods.go:47-53 | There is one line per event, in event order. Each line has the `~>` format above and reads back into its event's time and message. The copy at src/pod_data.go:53-59 is the same code. |
| RootList.InputOnSubmitted | list.go:94-111 | An empty search text gives a fresh listing: the names, or the error's text. Any other text gives exactly the current names that contain it, in their order. None that contains it is dropped. |
| SrcPodData.GetPodDetail | src/pod_data.go:32-51 | The result describes the first pod in list order with the selected name, as for `RootPods.GetPodDetail`. With no such pod it is six empty strings and no containers. |
| Ui.InputOnSubmitted | internal/ui/ui.go:242-261 | An empty search text or no selected namespace gives an empty list. Otherwise the result is exactly the names in the namespace's listing (or its error text) that contain the text, in listing order. |
| Ui.ExecButton.constructor | internal/ui/ui.go:348 | A new button shows its name and is visible. |
| Ui.ExecButton.SetText | internal/ui/ui.go:151 | Setting the text changes only the text. |
| Ui.ExecButton.Show | internal/ui/ui.go:152 | Showing a button makes it visible and keeps its text. |
| Ui.CreateBaseExecIconButton | internal/ui/ui.go:344-353 | The result is ten distinct new buttons, each labelled with the given name. |
| Ui.LabelledCount | internal/ui/ui.go:150-156 | A pod with n containers labels min(n, 10) buttons. |
| Ui.LabelExecButtons | internal/ui/ui.go:150-156 | Buttons 0 to min(n, 10) − 1 get the container names in order and are shown. The loop stops after index 9, and every other button keeps its text and visibility. |
| Ui.OnCommandSubmitted | internal/ui/ui.go:174-189 | A submitted command runs as `sh -c <command>` in the button's container without standard input. The window shows the command's combined output with the escape sequences removed, or "" when the executor could not be built. |
| Ui.HintIsPlain | internal/k8s/k8s.go:323-324 | The timeout hint line contains no escape character and cannot complete one. |
| Ui.TimeoutHintDisplayed | internal/ui/ui.go:177-184 | After a timeout the window shows the stripped output of the command followed by the intact hint line, whatever escape sequences the command wrote. |

## Left out

- Fyne widgets, windows, tabs and layouts are presentation state in a foreign toolkit. This covers the tab-removal loops, the log tabs, the YAML window, the copy buttons, the status text built in `ListOnSelected`/`listOnSelected`, and the `strings.Join(events, "\n")` that fills the events label.
- Cluster client calls are foreign I/O, and their answers are inputs to the model. This covers kubeconfig and flag loading (`GetClientSet`, `GetCurrentContext`), `GetClientInterface`, the SPDY executor and the REST request it posts.
- `GetPodLogs`, `podLogStreamToString` and `getPodLogs` only copy a log stream into a buffer. `GetPodYaml` serialises with the YAML codec. Both are left out as I/O and library code.
- `GetPodLabels` and `GetPodAnnotations` are a Get call followed by `ConvertMapToString`. Only the formatter is modelled.
- `CreateInt64` only returns a pointer to its argument.
- Four functions panic when a List or Get call fails: `getPodDetail`, `getPodNamespace` and `getPodData` under src/ in the root packages, and `GetPodNamespace` at internal/k8s/k8s.go:211-214 (modelled by `K8s.GetPodNamespace`). Those paths are not modelled. The model takes the successful answer as its input.
- `K8s.GetPodDetail`, `K8s.GetPodEvents`: the source ignores or only prints Get and List errors and goes on with the empty object the client returns. The model takes the object returned as its input.
- `K8s.GetNamespaces`, `Ui.OnCommandSubmitted`: the `fmt.Printf("failed to get namespaces: …")` at internal/k8s/k8s.go:93 and the `fmt.Println(err)` after `ExecCmd` at internal/ui/ui.go:178-180 only log to the console. The logging is not modelled; the values returned and shown are.
- `Utils.CheckForError`: a non-nil empty slice makes the source panic on `slice[0]`, so it requires a non-empty slice when the slice is not nil.
- `RootUtils.CheckForError`: the older classifier has no nil guard, so a nil or an empty slice makes it panic on `slice[0]`. It therefore requires a non-empty slice.
- `Utils.MapTextRoundTrip`: the round trip is proved only when no value holds a newline and no key holds '=' or a newline. Without that restriction it is false: annotation values are free text, and `Utils.MapTextAmbiguous` gives two different maps that format to the same text.
- The goroutine, the `sync.WaitGroup` and the five-second context deadline of `ExecCmd` are concurrency. The model keeps only the sequential outcome: what the stream wrote and the error it ended with. How the stream interleaves its writes to the two buffers is not modelled.
- `K8s.ExecCmd`: only whether standard input is given (nil or not) is modelled, not what it contains.
- `time.Since`, `Duration.String` and the timestamp layouts depend on the wall clock and on library formatting. An age is a whole number of seconds together with its rendered text, and event timestamps are given already formatted.
- `K8s.AgeInDays`: the sub-second part of a pod's age is not modelled, because ages are whole seconds. For such ages `math.Trunc(age.Hours())` is exactly `seconds / 3600`: `Duration.Hours()` adds only the sub-hour remainder, a fraction of at most 3599/3600, to the whole hour count.
- Strings are sequences of characters. Go's byte-level view of UTF-8 text is not modelled. The escape pattern and every literal involved are ASCII.
- The regular-expression engine in general is not modelled. Only the one fixed pattern is, as a scanner proved equal to its declarative meaning.
