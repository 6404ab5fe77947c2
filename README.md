# Worker-pool expression parser of `bizflyctl kubernetes`

This project models, in Dafny, the parser the `kubernetes` command of
`bizflyctl` uses to read a worker pool from a command-line argument. The
parser lives in `cmd/kubernetes.go` as `isIntField`, `parseTaints`,
`parseLabels` and `parseWorkerPool`. It turns an expression such as

    name=pool1;flavor=2c_4g;profile_type=premium;volume_type=SSD;volume_size=40;availability_zone=HN1;desired_size=1;min_size=1;max_size=5;labels=env=dev;taints=app=x:NoSchedule

into a `gobizfly.WorkerPool` record. The steps are:

- The expression is split on `;`.
- A segment that mentions `labels` goes to the labels parser.
- Otherwise, a segment that mentions `taints` goes to the taints parser.
- Every other segment must match `(.*)=(.*)`.
- The four size fields are read with `strconv.Atoi`. `enable_autoscaling` also sets the autoscaling flag through `strconv.ParseBool`.
- Every mandatory text field must then be non-empty and every mandatory size non-zero.
- The record is then assembled.

The project has five files:

- `wrappers.dfy`: the `Option` type.
- `strings.dfy`: `strings.Index`, `strings.Contains` and `strings.Split`, with `Join` as the inverse of `Split`.
- `regexp.dfy`: the three regular expressions of the parser. On newline-free text, Go's leftmost-first greedy matching of these patterns is plain string surgery:
  - `(.*)=(.*)` splits at the last `=`.
  - `(.*)=(.*):(.*)` splits at the last `:`, then at the last `=` before it.
  - `labels=(.*)` and `taints=(.*)` capture everything after the leftmost occurrence of the prefix.
- `strconv.dfy`: `Atoi` and `ParseBool` on 64-bit Go, with `Itoa` and `FormatBool` as their inverses.
- `kubernetes.dfy`: the parser itself.

Each `log.Fatal` becomes an `Err` carrying one `ParseError` per distinct message.

The three parsing functions of the source are loops that update local state. They are modelled as the methods `ParseLabels`, `ParseTaints` and `ParseWorkerPool`; the two required-field loops are the method `CheckRequired`. Each method is proved equal to a function: `LabelsOf`, `TaintsOf`, `WorkerPoolOf` or `Validate`. The lemmas then state what those functions promise:

- Success requires every segment to be well formed and every mandatory field to be set.
- Every stored taint has a key and an effect.
- The last segment for a key wins, and absent keys read as Go's zero values.
- A zero-valued mandatory field counts as missing.
- A complete record without labels or taints, whose texts hold no `;` or `=` and never mention `labels` or `taints`, parses back from its rendering.

Four behaviours of the code worth knowing:

- A label pair is split at its last `=` (greedy `(.*)=(.*)`), not the first. The same holds for scalar segments.
- A label pair with an empty key, such as `=v`, is accepted.
- A missing labels segment leaves the record's label map nil (`None`), not empty.
- `enable_autoscaling` is stored in the text map as well as in the flag, because there is no `continue` after it.

## Model

| member | source | states |
|---|---|---|
| Strings.IndexLeftmost | cmd/kubernetes.go:446 | `Index` returns an occurrence of the pattern with no occurrence before it; `None` exactly when the pattern occurs nowhere |
| Strings.ContainsOccurs | cmd/kubernetes.go:503-510 | `strings.Contains` holds exactly when the substring occurs at some index |
| Strings.Split | cmd/kubernetes.go:493 | `strings.Split` gives at least one piece (`""` splits into `[""]`), and no piece holds the separator |
| Strings.JoinSplit | cmd/kubernetes.go:493 | joining the pieces of a split with the separator gives the original text back |
| Strings.SplitJoin | cmd/kubernetes.go:493 | splitting the join of separator-free pieces gives the pieces back |
| Strings.SplitAppend | cmd/kubernetes.go:493 | appending `;segment` to an expression appends exactly one piece to its split |
| Strings.SplitKeepsAbsent | cmd/kubernetes.go:493 | a character absent from the text is absent from every piece |
| Regexp.LastIndex | cmd/kubernetes.go:501 | the index of the last occurrence of a character (none after it); `None` exactly when the character is absent |
| Regexp.MatchKeyValue | cmd/kubernetes.go:511-516 | `(.*)=(.*)` fails exactly when there is no `=`; on success the text is `key=value` and the value holds no `=` |
| Regexp.KeyValueRoundTrip | cmd/kubernetes.go:511-516 | `key=value` with no `=` in the value is matched back as that key and value |
| Regexp.KeyValueGreedy | cmd/kubernetes.go:473 | of all ways to read a text as `key=value`, the match takes the longest key |
| Regexp.MatchTaintShape | cmd/kubernetes.go:444 | a taint match is `key=value:effect` with no `=` in the value and no `:` in the effect |
| Regexp.MatchTaintFails | cmd/kubernetes.go:454-458 | `(.*)=(.*):(.*)` fails exactly when no `=` comes before some `:` |
| Regexp.TaintRoundTrip | cmd/kubernetes.go:454 | `key=value:effect` with no `=` in the value and no `:` in the effect is matched back as those three parts |
| Regexp.TaintGreedy | cmd/kubernetes.go:444 | of all ways to read a token as `key=value:effect`, the match takes the longest key and, for that key, the longest value |
| Regexp.SubmatchAfterLeftmost | cmd/kubernetes.go:474-479 | `labels=(.*)` fails exactly when `labels=` does not occur; otherwise the capture is the whole suffix after its leftmost occurrence |
| Strconv.Atoi | cmd/kubernetes.go:522 | the result lies in the 64-bit range; a syntax error exactly when the text is not a signed decimal, and then 0; a range error gives the clamped bound |
| Strconv.AtoiItoa | cmd/kubernetes.go:522 | every 64-bit integer written in decimal is read back exactly, without error |
| Strconv.ParseBool | cmd/kubernetes.go:518 | an error only with result false; a true result only from a text starting with `1`, `t` or `T` |
| Strconv.ParseBoolFormatBool | cmd/kubernetes.go:518 | `true` and `false` are read back without error |
| Kubernetes.IsIntField | cmd/kubernetes.go:434-441 | a key is an integer field exactly when it is one of the four size fields |
| Kubernetes.RequiredFieldsClassified | cmd/kubernetes.go:494-495 | mandatory sizes go to the integer map; mandatory texts and `enable_autoscaling` go to the text map |
| Kubernetes.LabelCaptures | cmd/kubernetes.go:482-488 | the captures exist exactly when every label pair has an `=`; there is one per pair, in order, and each is that pair's match |
| Kubernetes.ToMapKeys | cmd/kubernetes.go:487 | the label map's keys are exactly the keys of the pairs |
| Kubernetes.ToMapLastWins | cmd/kubernetes.go:487 | a key holds the value of the last pair that has it |
| Kubernetes.LabelsOf | cmd/kubernetes.go:472-490 | the only error is the labels error; it fails without `labels=` and with nothing after it; otherwise it succeeds exactly when every comma-separated pair has an `=` |
| Kubernetes.LabelsOfMap | cmd/kubernetes.go:481-489 | on success the map's keys are the pairs' keys, and each key holds the value of its last pair |
| Kubernetes.ParseLabels | cmd/kubernetes.go:472-490 | the loop filling the label map returns exactly `LabelsOf` |
| Kubernetes.TaintOf | cmd/kubernetes.go:454-466 | a taint read from a token has a non-empty key and a non-empty effect |
| Kubernetes.TaintOfShape | cmd/kubernetes.go:454-466 | a token is a taint exactly when it is `key=value:effect` with a non-empty key and effect, split at the last `:` and the last `=` before it |
| Kubernetes.TaintCaptures | cmd/kubernetes.go:453-469 | the taints exist exactly when every token is a taint; there is one per token, in token order |
| Kubernetes.TaintsOf | cmd/kubernetes.go:443-470 | the only error is the taints error, including a missing `taints=`; on success every token reads as a taint, in order, and every taint has a key and an effect |
| Kubernetes.ParseTaints | cmd/kubernetes.go:443-470 | the loop appending taints returns exactly `TaintsOf` |
| Kubernetes.CollectErrPersists | cmd/kubernetes.go:502-527 | the first failing segment decides the error; later segments are never looked at |
| Kubernetes.FirstUnset | cmd/kubernetes.go:528-537 | `None` exactly when every listed field is set; otherwise a field that is unset with every field before it set |
| Kubernetes.ValidateSound | cmd/kubernetes.go:528-537 | validation passes exactly when the five texts are non-empty and the four sizes non-zero; otherwise it names the first unset field, texts before sizes |
| Kubernetes.ZeroSameAsMissing | cmd/kubernetes.go:528-537 | a mandatory field given as `""` or `0` validates exactly as if it had been left out |
| Kubernetes.CheckRequired | cmd/kubernetes.go:528-537 | the two required-field loops return exactly `Validate` |
| Kubernetes.WorkerPoolOf | cmd/kubernetes.go:492-554 | a parsed record has the five texts non-empty, the four sizes non-zero, and every taint with a key and an effect |
| Kubernetes.CollectTaintsWellFormed | cmd/kubernetes.go:507-510 | the segment loop only ever holds taints with a key and an effect |
| Kubernetes.WorkerPoolOkIff | cmd/kubernetes.go:502-537 | a parse succeeds exactly when the segment loop succeeds and validation passes |
| Kubernetes.WorkerPoolFromMaps | cmd/kubernetes.go:538-551 | on success every record field is the loop's map entry, flag, taints or (possibly absent) label map for that field; success itself is characterised by `WorkerPoolOkIff` |
| Kubernetes.ZeroLastFieldFails | cmd/kubernetes.go:521-537 | ending any expression with a scalar segment that gives a mandatory text as `""`, or a mandatory size a value `Atoi` reads as 0 (`0` or unreadable text), makes the parse fail |
| Kubernetes.StoredZeroInvalid | cmd/kubernetes.go:521-537 | storing a mandatory field at its zero value makes validation fail |
| Kubernetes.CollectScalarsOk | cmd/kubernetes.go:502-527 | a loop over scalar segments only succeeds and leaves labels absent and taints empty |
| Kubernetes.ScalarPairStored | cmd/kubernetes.go:511-526 | with distinct keys, each scalar pair is read back from the map its key belongs to |
| Kubernetes.ParseRender | cmd/kubernetes.go:492-554 | a complete record without labels or taints, rendered as one `key=value` segment per field, parses back to the same record |
| Kubernetes.ParseWorkerPool | cmd/kubernetes.go:492-554 | the segment loop, the required-field loops and the assembly return exactly `WorkerPoolOf`; a record returned is complete |
| Kubernetes.RoutedSegmentsSkipScalars | cmd/kubernetes.go:503-510 | a labels or taints segment never touches the scalar maps or the flag; a segment mentioning both `labels` and `taints` succeeds exactly when the labels parser does and then only replaces the label group; each parser changes only its own group |
| Kubernetes.MentionOfLabelsIsRouted | cmd/kubernetes.go:503-506 | `name=mylabels` is sent to the labels parser, which rejects it |
| Kubernetes.ScalarWithoutEquals | cmd/kubernetes.go:511-514 | a scalar segment without `=` is rejected with the input error |
| Kubernetes.ScalarSegmentStored | cmd/kubernetes.go:511-526 | `key=value` stores the value under the key: converted by `Atoi` in the integer map for a size field, in the text map otherwise; `enable_autoscaling` also sets the flag |
| Kubernetes.CollectScalarSnoc | cmd/kubernetes.go:502-527 | appending a scalar segment stores it on top of the state left by the segments before it |
| Kubernetes.StepKeepsScalar | cmd/kubernetes.go:502-527 | a segment that is not a scalar with this key leaves the key's entries, and the flag, alone |
| Kubernetes.LastScalarWins | cmd/kubernetes.go:516-526 | a key given several times keeps the value of its last segment, and so does the autoscaling flag |
| Kubernetes.UnsetScalarDefaults | cmd/kubernetes.go:496-500 | a key that no segment sets stays out of both maps, so it reads as the zero value, and the flag stays false |
| Kubernetes.StepKeepsGroups | cmd/kubernetes.go:502-527 | a non-labels segment leaves the label map alone, and a non-taints segment leaves the taints alone |
| Kubernetes.LastLabelsWin | cmd/kubernetes.go:503-506 | of several labels segments, the last one decides the labels |
| Kubernetes.GroupsOnlyLabels | cmd/kubernetes.go:504 | the group map only ever has the key `labels` |
| Kubernetes.UnsetLabelsDefault | cmd/kubernetes.go:549 | without a labels segment, the label map is absent |
| Kubernetes.LastTaintsWin | cmd/kubernetes.go:507-510 | of several taints segments, the last one decides the taints |
| Kubernetes.UnsetTaintsDefault | cmd/kubernetes.go:499 | without a taints segment, the taints stay empty |

## Left out

- The cobra command wiring, the API client, kubeconfig handling and every other command of `cmd/kubernetes.go` are not part of this model: they are I/O around the parser.
- The debug printing at `cmd/kubernetes.go:455`, `:515` and `:552` is left out: it is output only and does not affect the result.
- `log.Fatal` exits the process. Here it is an `Err` value returned to the caller, carrying the message's kind and, for a missing field, its name.
- Input containing a newline is outside the model. The methods require a newline-free expression, because Go's `.` does not match `\n`, and the three patterns are modelled only for such text.
- Go's regular-expression engine is not modelled in general. Only the three fixed patterns are modelled, each as the split it performs.
- Strconv.Atoi: when the digits overflow 64 bits before a later non-digit (say twenty `9`s then `x`), Go reports a range error with the clamped value, while the model reports a syntax error with 0.
- Integer sizes follow a 64-bit `int`. A 32-bit platform's narrower `Atoi` range is not modelled.
- `ParseBool` is modelled on its twelve accepted spellings. Its result is used exactly as the source uses it, with the error ignored.
- Kubernetes.ParseRender covers records without labels and taints whose texts hold no `;` or `=` and no segment mentions `labels` or `taints`. Records with label or taint groups are covered by `LastLabelsWin`, `LastTaintsWin`, `LabelsOfMap` and `TaintOfShape` instead.
