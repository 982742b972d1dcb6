# Operator tooling around the RPA engine: a verified model

The operators of the engine work through a handful of scripts. They rewrite packaged flows, run a flow on a
workstation with its secrets kept off the console, publish packages, bind portals to the published versions, and
read the supplier portal's tables. This project models those scripts in Dafny and proves what they keep.

| part | modules | shape |
|---|---|---|
| source rewriter | `Lines`, `FlowPatch`, `DemoLogin` | text functions with split/join laws; a loop over the lines |
| console redactor | `Redaction`, `RedactingStream`, `Credentials` | masking functions; a stream object; a recursive collector |
| artifact sink | `ArtifactPaths` | sanitiser functions; an object that stores files |
| binding scripts | `BindingStore`, `BindingLaws`, `OfficialPortal`, `RehearsalSign`, `ProductSign`, `GenerateBind`, `DemoSwitch`, `PrepareBind`, `BindingRuns` | tables in a `Database` object; each script is a method with a working copy that is committed or dropped |
| statement reset | `StatementReset` | a database object and one guarded method |
| portal reader | `PortalTable`, `BrowserLauncher` | search loops; a resource protocol over an event log |
| publishing | `PublishPipeline`, `ReceiptMerge`, `CurlReply` | an object with an effect log; an ordered merge; reply framing |

`Text` holds Python's string search, replacement and stripping. Every method is proved equal to a function of its
inputs or of the old state, and the properties are proved of that function. The `bind_*` scripts share one loop (find
the live binding of a taken portal, update it in place or insert one), so `BindingStore.BindAll` models it once, with
the portals taken, the refusals and the config as its plan; `BindingLaws` proves the laws of the loop for every plan.

What the model says about the code, where that is not what a reader would expect:

- **A secret with a star can be shown.** Masking `*a` in `*aa` gives `***a`, which contains `*a`. A secret is kept
  off the console whatever is printed exactly when it is *clean*: it neither starts nor ends with `*` and does not
  contain `***` (`Redaction.GuaranteeIffClean`).
- **Redaction is per write.** A secret printed in two pieces is not recognised. Over a run of writes a clean listed
  secret is shown exactly when some occurrence of it in the joined writes crosses a boundary between two of them and
  touches nothing masked (`RedactingStream.ShownIffEscapes`); so one that is never written in pieces is never shown.
- **One sanitising is not enough.** Cutting at the limit can expose a `.` or `_` at the end. One application is a
  fixed point exactly when it does not; two always are.
- **Any mention counts as the import.** A comment with the name is enough, and then the patched flow calls what it
  never imports (`DemoLogin.CommentCountsAsImport`). Also an import head inside the replaced block goes with the block.
  `DemoLogin.ImportInPatched` says for every text when the import line is inserted and where it ends up.
- **A receipt may name an id that was not validated.** The receipt takes the version id of the publish reply. It is the
  one uploaded and validated exactly when the reply gives none or repeats it (`PublishPipeline.ReceiptNames`).
- **A guard that cannot fire.** The rehearsal bind refuses the production name, but only after a test that the
  production name never passes (`RehearsalSign.ProductionNameNeverRefused`).
- **The check after the rehearsal commit can differ from the one before.** It raises on a config that is JSON but no
  object, and the bind replaces the configs of its own rows; `RehearsalSign.CheckChangedIff` is the exact
  condition on the rows before the bind, `BadConfigIsRepaired` an instance.
- **The prepare bind can move a demo portal.** Its fallback lookup goes by URL alone, so a portal with the official
  URL and `test` in its name is bound, committed, and only then reported.
  `PrepareBind.CheckFailsIffPortalIsDemo` says exactly when, `DemoPortalIsBound` is such a run.
- **No index keeps bindings unique.** Nothing in the table forbids two live bindings of one portal and template; that
  there is at most one is an invariant of the scripts (`BindingRuns.RunKeepsOneLive`), given it holds at the start.
  Bindings may dangle; only the safety results over runs ask that every binding has its portal and template row.

Two preconditions recur. `PortalKeys` and `TemplateKeys` say that ids are primary keys of their tables.
`IsPassOrder` says that the secrets are sorted by falling length, in whatever order ties come out;
`Redaction.PassOrderExists` shows that such an order always exists.

## Model

| member | source | states |
|---|---|---|
| `Redaction.GuaranteeIffClean` | rpa-flows/tools/local_flow_runner.py:138-150 | a secret stays off the console for every text and every set of listed secrets if and only if it is clean |
| `Redaction.CleanSecretNeverWritten` | rpa-flows/tools/local_flow_runner.py:144-150 | what is written contains no clean listed secret; a clean text can be in the output only if it was in the input and is not listed |
| `Redaction.MaskingCreatesNothing` | rpa-flows/tools/local_flow_runner.py:146-147 | masking one secret never creates an occurrence of a clean one, so a later pass cannot undo an earlier one |
| `Redaction.OutputIsMaskedInput` | rpa-flows/tools/local_flow_runner.py:144-150 | with clean secrets the output is the input with disjoint intervals, each exactly one secret, turned into the mask; the text between is kept in order and shows no secret |
| `Redaction.CoveringOccurrenceIsOneMask` | rpa-flows/tools/local_flow_runner.py:139-147 | longest first: an occurrence that covers every secret occurrence it overlaps is marked as one unit; with clean secrets the marking renders as the output |
| `Redaction.UnchangedIffNoSecret` | rpa-flows/tools/local_flow_runner.py:144-150 | with clean secrets a write passes unchanged if and only if it shows none of them |
| `Redaction.HiddenByPart` | rpa-flows/tools/local_flow_runner.py:144-150 | an unclean secret is hidden as well when a clean listed secret occurs in it |
| `Redaction.StarredSecretIsShown` | rpa-flows/tools/local_flow_runner.py:144-150 | a concrete unclean secret that comes out |
| `Redaction.PassOrderExists` | rpa-flows/tools/local_flow_runner.py:141-143 | every set of non-empty secrets can be put in an order of passes: each once, longest first |
| `RedactingStream.RedactingTextStream.Write` | rpa-flows/tools/local_flow_runner.py:144-150 | the stream receives exactly the redacted text, the caller is told the length of the unredacted one |
| `RedactingStream.SecretOnlyAcrossWrites` | rpa-flows/tools/local_flow_runner.py:144-150 | over any run of writes an occurrence of a clean secret is never inside what one write produced |
| `RedactingStream.StreamIsMaskedInput` | rpa-flows/tools/local_flow_runner.py:144-150 | over any run of writes, with clean secrets, the stream is all that was written with disjoint intervals, each exactly one secret, turned into the mask |
| `RedactingStream.ShownIffEscapes` | rpa-flows/tools/local_flow_runner.py:144-150 | with clean secrets, a listed one is shown if and only if some occurrence in the joined writes crosses a boundary between two writes and lies in a plain stretch; equivalently, if and only if it occurs in a plain stretch of the joined marking |
| `RedactingStream.WholeWritesHide` | rpa-flows/tools/local_flow_runner.py:144-150 | with clean secrets, one that is never written across a boundary is never shown |
| `RedactingStream.SplitSecretIsShown` | rpa-flows/tools/local_flow_runner.py:144-150 | a concrete secret in two writes that is shown |
| `Credentials.CredentialScalarValues` | rpa-flows/tools/local_flow_runner.py:446-460 | the recursive collector returns the non-empty scalars in document order, skipping null and booleans, and terminates |
| `Credentials.CollectsExactlyTheLeaves` | rpa-flows/tools/local_flow_runner.py:446-460 | a value is collected if and only if some path through mappings and lists reaches it and it is not empty |
| `Credentials.CredentialEncodings` | rpa-flows/tools/local_flow_runner.py:463-479 | the set of texts to hide: every raw value, its three encodings, and up to 20 raw values the Base64 form of every ordered pair; nothing else and nothing empty |
| `Credentials.EncodingCount` | rpa-flows/tools/local_flow_runner.py:463-479 | n raw values give at most 4n texts, and n*n more when n is at most 20 |
| `Credentials.ConsoleHidesCredentials` | rpa-flows/tools/local_flow_runner.py:446-488 | collector, encodings and redactor together: no clean credential scalar, encoding or pair is in what one write puts out |
| `ArtifactPaths.SubstituteByRuns` | rpa-flows/tools/local_flow_runner.py:436-436 | allowed text is copied, each maximal run of other characters becomes one underscore |
| `Text.StripOf` | rpa-flows/tools/local_flow_runner.py:436-436 | stripping takes off all of the given characters at both ends of a text, and nothing else |
| `ArtifactPaths.SanitiseKeepsTheCore` | rpa-flows/tools/local_flow_runner.py:435-443 | of the substituted text the sanitiser keeps all between the `.` and `_` at its ends: whole when it fits, else its first characters up to the limit, and the fallback where nothing is left |
| `ArtifactPaths.CleanedOnce` | rpa-flows/tools/local_flow_runner.py:435-443 | that determines the result |
| `ArtifactPaths.FallbackIff` | rpa-flows/tools/local_flow_runner.py:437-443 | the fallback is for a text of which only `.` and `_` are left; any other keeps a part that begins with neither |
| `ArtifactPaths.SanitisedIsSafe` | rpa-flows/tools/local_flow_runner.py:435-443 | the output is non-empty, within the limit, drawn from the alphabet, does not start with `.` or `_`, and is neither `.` nor `..` |
| `ArtifactPaths.FixedAfterTwo` | rpa-flows/tools/local_flow_runner.py:435-443 | two applications reach a fixed point, for every text |
| `ArtifactPaths.FixedAfterOneIff` | rpa-flows/tools/local_flow_runner.py:435-443 | one application is a fixed point if and only if the cut does not expose a `.` or `_` |
| `ArtifactPaths.OneIsNotEnough` | rpa-flows/tools/local_flow_runner.py:435-437 | a concrete segment of 161 characters for which one application is not enough |
| `ArtifactPaths.SafeComponentIsOnePiece` | rpa-flows/tools/local_flow_runner.py:101-103 | joining a safe text to a path and resolving adds exactly that one component |
| `ArtifactPaths.DestinationStaysBelow` | rpa-flows/tools/local_flow_runner.py:101-104 | for every run id and type name the directory is exactly two components below the root, so the containment check cannot raise |
| `ArtifactPaths.RawSegmentEscapes` | rpa-flows/tools/local_flow_runner.py:101-104 | without the sanitiser the segment `..` would leave the root |
| `ArtifactPaths.LocalArtifactSink.Copy` | rpa-flows/tools/local_flow_runner.py:92-112 | the artifact lands below the root in the cleaned run id, then the cleaned type, under the fresh id and the cleaned name, each a safe component; a size mismatch leaves nothing there; no other file changes; the containment check never raises |
| `Lines.JoinSplit` | rpa-engine/scripts/_materialize_demo_ocr_flows.py:125-143 | joining the lines of a text gives the text back |
| `Lines.SplitJoin` | rpa-engine/scripts/_materialize_demo_ocr_flows.py:125-143 | splitting the join of any proper list of lines gives the list back |
| `Lines.SplitIsSplit` | rpa-engine/scripts/_materialize_demo_ocr_flows.py:125-125 | splitting always gives a proper list: single lines, all but the last terminated, no CR LF torn apart |
| `Lines.LineIffNoInnerBreak` | rpa-engine/scripts/_materialize_demo_ocr_flows.py:125-125 | a line is a text without a line boundary before its end, a final CR LF counting as one |
| `FlowPatch.ReplaceDefBlock` | rpa-engine/scripts/_materialize_demo_ocr_flows.py:124-143 | the loop computes the replacement of the first block with the header |
| `FlowPatch.SucceedsIffCut` | rpa-engine/scripts/_materialize_demo_ocr_flows.py:124-128 | it succeeds if and only if the text can be cut before a line with the prefix |
| `FlowPatch.ReplacesTheCut` | rpa-engine/scripts/_materialize_demo_ocr_flows.py:124-143 | prefix + block + suffix is the text, prefix + replacement + suffix the result, where the block starts at the first line with the prefix, its other lines are blank or deeper, and the suffix is empty or starts at a non-blank line that is not deeper |
| `FlowPatch.CutIsUnique` | rpa-engine/scripts/_materialize_demo_ocr_flows.py:124-143 | a text has at most one such cut |
| `FlowPatch.CutAfterReplacing` | rpa-engine/scripts/_materialize_demo_ocr_flows.py:124-143 | after the replacement the text is cut at the same place, around the replacement |
| `FlowPatch.ReplacingIsIdempotent` | rpa-engine/scripts/_materialize_demo_ocr_flows.py:124-143 | replacing by a block of the same header again changes nothing, for every text |
| `FlowPatch.BlankIffTrimmed` | rpa-engine/scripts/_materialize_demo_ocr_flows.py:133-133 | a line is blank if and only if stripping leaves nothing of it |
| `FlowPatch.MentionIff` | rpa-engine/scripts/_materialize_demo_ocr_flows.py:147-147 | the name is mentioned if and only if it occurs with no word character right before or after it |
| `FlowPatch.BlankLineAdded` | rpa-engine/scripts/_materialize_demo_ocr_flows.py:140-142 | the replacement gets the line feeds that it lacks to end in a blank line, and no more |
| `FlowPatch.ImportSucceedsIff` | rpa-engine/scripts/_materialize_demo_ocr_flows.py:146-151 | the import step succeeds if and only if the text mentions the name or has an import head; its one refusal is the missing import block |
| `FlowPatch.ImportInserted` | rpa-engine/scripts/_materialize_demo_ocr_flows.py:146-152 | the text is unchanged if and only if it mentions the name; otherwise exactly one line enters, right after the first import head |
| `FlowPatch.ImportEnsured` | rpa-engine/scripts/_materialize_demo_ocr_flows.py:146-152 | afterwards the name is mentioned as a whole word |
| `DemoLogin.LoginIsBlock` | rpa-engine/scripts/_materialize_demo_ocr_flows.py:96-112 | each of the two replacements, with its closing blank line, is one whole block under its own header |
| `DemoLogin.PatchFlow` | rpa-engine/scripts/_materialize_demo_ocr_flows.py:281-290 | import, then replacement, then the write; any refusal leaves the file as it was |
| `DemoLogin.PatchSucceedsIff` | rpa-engine/scripts/_materialize_demo_ocr_flows.py:281-290 | the patch succeeds if and only if the text mentions the name or has an import head, the kind is known, and the text has a block under the header; which of the three refusals comes out otherwise |
| `DemoLogin.PatchedMentionsLogin` | rpa-engine/scripts/_materialize_demo_ocr_flows.py:281-290 | the patched text mentions the OCR login |
| `DemoLogin.PatchIsIdempotent` | rpa-engine/scripts/_materialize_demo_ocr_flows.py:281-290 | patching a patched text changes nothing, for every text and kind for which the patch succeeds |
| `DemoLogin.ImportInPatched` | rpa-engine/scripts/_materialize_demo_ocr_flows.py:146-152 | a text that mentions the name keeps all but its block; in any other the import line follows the first import head before or after the block, goes with the function block that holds the head, or ends the method block that holds it |
| `DemoLogin.CommentCountsAsImport` | rpa-engine/scripts/_materialize_demo_ocr_flows.py:146-149 | a concrete text with the name in a comment, patched into a flow that calls it and imports nothing |
| `BindingStore.BindAll` | service/_bind_official_sign_1_1_0.py:114-175 | the shared loop: per taken portal update the one live binding or insert one; stop at the first refusal or the first lookup with two rows |
| `BindingStore.OneLiveLookup` | service/_bind_official_sign_1_1_0.py:123-131 | while no pair has two live bindings, no lookup raises |
| `BindingStore.ConfigRoundTrip` | service/app/services/json_utils.py:7-17 | reading a written config gives its fields back; anything that is no object reads as an empty one |
| `BindingLaws.BindFrame` | service/_bind_official_sign_1_1_0.py:114-175 | a row changes only if it is a live binding of the template on a taken portal; every further row belongs to such a portal; no row moves |
| `BindingLaws.TakenIsBound` | service/_bind_official_sign_1_1_0.py:123-174 | afterwards each taken portal has exactly one live binding of the template, and it carries the receipt and the config |
| `BindingLaws.NoOffenceIff` | service/_bind_official_sign_1_1_0.py:115-131 | the loop runs to its end if and only if no live portal is refused and no taken one has two live bindings |
| `BindingLaws.StopsAtFirst` | service/_bind_official_sign_1_1_0.py:115-131 | a loop that stops does so at its first unacceptable portal, with the reason of that one |
| `BindingLaws.WrittenRow` | service/_bind_official_sign_1_1_0.py:132-174 | the row of a taken portal is the row it had with the columns of the plan, or the new row, and nothing else |
| `BindingLaws.BindKeepsOneLive` | service/_bind_official_sign_1_1_0.py:132-149 | the loop keeps at most one live binding per portal and template |
| `BindingLaws.RebindIsNoOp` | service/_bind_official_sign_1_1_0.py:114-175 | rerunning a bind that went through is a no-op, whatever new ids it draws |
| `BindingLaws.BindCommutes` | service/_bind_official_sign_1_1_0.py:114-175 | the loop commutes with every change of rows that it does not take, verdicts included |
| `OfficialPortal.OfficialUrlHasHost` | service/_switch_demo_ocr_bindings.py:18-46 | a URL with the full official address contains the bare host that the switch skips |
| `OfficialPortal.ProductionIsNoRehearsal` | service/_bind_official_sign_1_1_0.py:66-71 | the production name carries no rehearsal mark |
| `RehearsalSign.BindRehearsal` | service/_bind_official_sign_1_1_0.py:74-220 | the script: guards, bind on a working copy, commit or nothing, then the check on the committed tables |
| `RehearsalSign.CommitsIffSomeRehearsal` | service/_bind_official_sign_1_1_0.py:74-178 | it commits if and only if the guards pass, one live template has the code, some live portal is to be rehearsed and none of those has two live bindings |
| `RehearsalSign.RehearsalRefusals` | service/_bind_official_sign_1_1_0.py:74-177 | which refusal comes out, each if and only if: database, receipt, engine, template, nothing to rehearse, or two rows to choose from |
| `RehearsalSign.ProductionNameNeverRefused` | service/_bind_official_sign_1_1_0.py:115-121 | the refusal of the production name cannot fire |
| `RehearsalSign.DemoUntouched` | service/_bind_official_sign_1_1_0.py:115-119 | every binding of a demo portal is as it was and none is added |
| `RehearsalSign.RehearsalIsDryRun` | service/_bind_official_sign_1_1_0.py:132-174 | every rehearsal portal ends with exactly one live sign binding, on the receipt, enabled, with the official URL, the browser and `dryRun` true and no other config key; the columns of a new one |
| `RehearsalSign.RehearseAgain` | service/_bind_official_sign_1_1_0.py:97-178 | rerunning it changes nothing |
| `RehearsalSign.CheckVerdict` | service/_bind_official_sign_1_1_0.py:180-216 | the check passes if and only if no row offends, and else gives the verdict of the first row that does; what offends, said on the joined rows |
| `RehearsalSign.CheckJudgesTheRest` | service/_bind_official_sign_1_1_0.py:180-216 | the check after the commit gives the verdict of the same check before the bind on the rows outside the frame |
| `RehearsalSign.CheckChangedIff` | service/_bind_official_sign_1_1_0.py:180-216 | the verdict changes if and only if the first offending row is a rewritten one whose config is JSON but no object, and the first offending row among the others, if any, has no such config |
| `RehearsalSign.CheckUnchanged` | service/_bind_official_sign_1_1_0.py:180-216 | with no such config on a rewritten row the verdict is the one from before the bind |
| `RehearsalSign.BadConfigIsRepaired` | service/_bind_official_sign_1_1_0.py:202-210 | concrete tables on which the two verdicts differ |
| `ProductSign.BindProductionSign` | service/_bind_official_sign_1_1_5_product.py:81-217 | the script: guards, template seeded if missing, bind, exactly-one guard, commit or nothing |
| `ProductSign.CommitsIffOneProduction` | service/_bind_official_sign_1_1_5_product.py:81-217 | it commits if and only if the guards pass, a template can be had, and exactly one live portal has the production name, with the official URL and at most one live binding; otherwise the store is as before |
| `ProductSign.GuardRefusals` | service/_bind_official_sign_1_1_5_product.py:84-99 | which guard refuses, each if and only if: database, receipt, local version, engine |
| `ProductSign.ProductionRefusals` | service/_bind_official_sign_1_1_5_product.py:105-216 | past the guards: what seeding says, else the reason of the first bad production portal, else not exactly one |
| `ProductSign.ProductionIsReal` | service/_bind_official_sign_1_1_5_product.py:142-217 | a committed run leaves one live sign binding on the one production portal, enabled on the whole receipt, with the official URL and browser, without `dryRun` and with all other config keys kept; its other columns and all other rows are as before, or those of a new row |
| `ProductSign.TakenIsProduction` | service/_bind_official_sign_1_1_5_product.py:148-157 | which portals are taken, and that exactly the production ones elsewhere are refused |
| `ProductSign.SeedingIs` | service/_bind_official_sign_1_1_5_product.py:105-140 | the one live template with the code is taken; without one the fixed template is appended, with tenant and creator of the first live template; the three refusals, each if and only if |
| `ProductSign.SeededHasOne` | service/_bind_official_sign_1_1_5_product.py:105-140 | afterwards the seeded template is the only live one with the code |
| `ProductSign.CheckNeverFires` | service/_bind_official_sign_1_1_5_product.py:219-258 | every production row that the final check reads is the row just written, so the check never fires |
| `ProductSign.BindProductionAgain` | service/_bind_official_sign_1_1_5_product.py:81-217 | rerunning it changes nothing, the template table included |
| `GenerateBind.BindTemplate` | service/_bind_official_stmt_generate_1_1_3_product.py:91-131 | the inner loop edits exactly the targets of its template and counts them |
| `GenerateBind.BindGenerateFlow` | service/_bind_official_stmt_generate_1_1_3_product.py:54-135 | the script: guards, both loops on a working copy, exactly-one guard, commit or nothing |
| `GenerateBind.CommitsIffOneTarget` | service/_bind_official_stmt_generate_1_1_3_product.py:77-135 | it commits if and only if the guards pass and exactly one live binding, over all live templates with the code, is on a live portal whose trimmed name is the production name; otherwise the store is as before |
| `GenerateBind.TargetIff` | service/_bind_official_stmt_generate_1_1_3_product.py:91-112 | a target is a live binding joined to a live portal with that trimmed name and to a live template with the code |
| `GenerateBind.GenerateRefusals` | service/_bind_official_stmt_generate_1_1_3_product.py:57-134 | which refusal comes out, each if and only if: database, receipt, local version, engine, template, count |
| `GenerateBind.OnlyTargetChanges` | service/_bind_official_stmt_generate_1_1_3_product.py:113-123 | only that binding changes, it takes the receipt, and its config loses `dryRun` and nothing else |
| `GenerateBind.BindGenerateAgain` | service/_bind_official_stmt_generate_1_1_3_product.py:54-135 | rerunning it changes nothing |
| `DemoSwitch.SwitchDemoBindings` | service/_switch_demo_ocr_bindings.py:22-62 | the loop applies the switch to every joined row |
| `DemoSwitch.SwitchedRow` | service/_switch_demo_ocr_bindings.py:25-61 | a live binding on a live portal at the demo host and not the official one, of a live template with a published code, gets version, version id and checksum of that code, each in its own column, and is enabled; every other row is kept |
| `DemoSwitch.SwitchFrame` | service/_switch_demo_ocr_bindings.py:41-61 | only version, version id, checksum and status change, and only on a portal with the demo host and without the official URL |
| `DemoSwitch.SwitchAgain` | service/_switch_demo_ocr_bindings.py:22-62 | switching twice is switching once |
| `DemoSwitch.RehearsalAndSwitchCommute` | service/_switch_demo_ocr_bindings.py:41-62 | the rehearsal bind and the switch commute: same verdict, same tables, same new ids, in either order |
| `PrepareBind.BindPrepare` | service/_bind_official_prepare_1_2_12.py:46-177 | the script: portal, template and scan config looked up, one binding written, its jobs removed, commit or nothing |
| `PrepareBind.RemoveJobs` | service/_bind_official_prepare_1_2_12.py:164-175 | the loop disables and deletes exactly the live jobs of the binding |
| `PrepareBind.PreparedRow` | service/_bind_official_prepare_1_2_12.py:91-177 | the whole effect of a committed run, on rows of the tables: one live binding of the portal and template found, enabled on the whole receipt, its config that of the scan row but for four keys, or just URL and browser where there is no scan row; its live jobs disabled and deleted; all else kept |
| `PrepareBind.CommitsIffClear` | service/_bind_official_prepare_1_2_12.py:46-177 | it commits if and only if the receipt is its own and portal, template, scan binding and own binding are each unambiguous; otherwise the store is as before |
| `PrepareBind.PrepareRefusals` | service/_bind_official_prepare_1_2_12.py:52-137 | which refusal comes out: receipt, URL of the named portal, no portal, no template, each if and only if; every other is for two rows where one was needed |
| `PrepareBind.OnlyItsJobsGo` | service/_bind_official_prepare_1_2_12.py:164-175 | no live job is left for the binding, and a job changed if and only if it was one of them |
| `PrepareBind.PrepareAgain` | service/_bind_official_prepare_1_2_12.py:46-177 | rerunning it changes nothing, jobs included |
| `PrepareBind.CheckFailsIffPortalIsDemo` | service/_bind_official_prepare_1_2_12.py:179-210 | on tables that pass the check, it fails after the run if and only if the portal found is itself a demo portal |
| `PrepareBind.DemoPortalIsBound` | service/_bind_official_prepare_1_2_12.py:56-210 | concrete tables that pass the check, on which the run commits and the check then fails |
| `BindingRuns.RunKeepsOneLive` | service/_bind_official_sign_1_1_0.py:123-174 | over every run of the five scripts each portal and template keep at most one live binding, whatever bindings dangle |
| `BindingRuns.RunLookupsFindOne` | service/_bind_official_sign_1_1_0.py:123-131 | at no moment of a run does a binding lookup find two rows, so no bind loop stops for that |
| `BindingRuns.RunStaysValid` | service/_bind_official_sign_1_1_0.py:97-178 | every run keeps portals, keys and the rows that bindings refer to; templates and bindings are only added |
| `BindingRuns.RunStaysSafe` | service/_bind_official_sign_1_1_5_product.py:168-217 | over every run: if no sign binding of a rehearsal portal lacks `dryRun` true and none of the production portal has `dryRun`, none ever does |
| `BindingRuns.OnlySwitchesReachDemo` | service/_switch_demo_ocr_bindings.py:41-62 | over every run a binding off the official portals is what the switches alone would have made of it |
| `StatementReset.StatementDatabase.ChangeStage` | service/app/services/process_instance_service.py:252-271 | the stage is set, and a history row is added unless it was that stage already |
| `StatementReset.StatementDatabase.ResetOne` | service/_reset_stmt_pending_invoice_to_draft.py:44-110 | the script: guards, then bill, instance and stage changed together, or nothing |
| `StatementReset.CommitsIff` | service/_reset_stmt_pending_invoice_to_draft.py:48-93 | it commits if and only if told to, on the product database, with exactly one wanted bill that is unchecked, pending its invoice and has a line |
| `StatementReset.AnswerIs` | service/_reset_stmt_pending_invoice_to_draft.py:48-93 | which refusal comes out, or that it is a preview, in the order of the guards |
| `StatementReset.WantedIff` | service/_reset_stmt_pending_invoice_to_draft.py:57-68 | a wanted bill is a live one of that date and amount joined to a live instance |
| `StatementReset.HasLinesIff` | service/_reset_stmt_pending_invoice_to_draft.py:73-90 | the summary has a line if and only if it is an object whose `lines` is a list that is not empty |
| `StatementReset.ResetFrame` | service/_reset_stmt_pending_invoice_to_draft.py:94-109 | one bill and one instance change, and how; one stage change is logged; all else is as it was |
| `StatementReset.CommittedStateRefuses` | service/_reset_stmt_pending_invoice_to_draft.py:70-90 | after a commit every later run refuses |
| `StatementReset.AtMostOneCommit` | service/_reset_stmt_pending_invoice_to_draft.py:44-110 | over any number of runs at most one commits; all others, previews included, change nothing |
| `PortalTable.CleanIsClean` | rpa-engine/scripts/probe_tiandy_prod_readonly.py:484-484 | a cleaned text has only single spaces, none at either end |
| `PortalTable.CleanIsWords` | rpa-engine/scripts/probe_tiandy_prod_readonly.py:484-484 | cleaning keeps the words of a text, in order, with one space between |
| `PortalTable.IndexOfAny` | rpa-engine/scripts/probe_tiandy_prod_readonly.py:495-505 | the two loops compute the column: every exact match is tried before any partial one |
| `PortalTable.NoColumnIff` | rpa-engine/scripts/probe_tiandy_prod_readonly.py:495-505 | no column is found if and only if no header contains any of the names |
| `PortalTable.ColumnFound` | rpa-engine/scripts/probe_tiandy_prod_readonly.py:495-505 | the column found is the first one equal to the first name that has an equal header; only without such a name, the first one containing the first name contained |
| `PortalTable.ColumnIsColumn` | rpa-engine/scripts/probe_tiandy_prod_readonly.py:495-505 | the column is the one that the description of both modes determines |
| `PortalTable.OneColumn` | rpa-engine/scripts/probe_tiandy_prod_readonly.py:495-505 | there is only one such column |
| `PortalTable.ColumnsAreColumns` | rpa-engine/scripts/probe_tiandy_prod_readonly.py:506-514 | each of the seven columns is found by its own names |
| `PortalTable.CollectRows` | rpa-engine/scripts/probe_tiandy_prod_readonly.py:518-533 | the rows are, in order, exactly the body rows whose number is neither empty nor `--`; each of the seven fields is the cleaned cell under its own column, or empty |
| `PortalTable.CollectOrders` | rpa-engine/scripts/probe_tiandy_prod_readonly.py:485-535 | the first table with the most rows is read, its headers cleaned, the columns found by their names; it errs exactly without a table or without one of the two required columns |
| `PortalTable.BlobHasMark` | rpa-engine/scripts/probe_tiandy_prod_readonly.py:615-616 | a space-free mark occurs in the joined row if and only if it occurs in some cell |
| `PortalTable.CountPendingSign` | rpa-engine/scripts/probe_tiandy_prod_readonly.py:612-618 | the count is the number of rows with a cell that has the mark |
| `PortalTable.FindUnchecked` | rpa-engine/scripts/probe_tiandy_prod_readonly.py:729-747 | the first row with a cell that has the mark, with the first non-empty public date and amount; none if and only if no row has it |
| `BrowserLauncher.LaunchBrowser` | rpa-engine/scripts/probe_tiandy_prod_readonly.py:764-793 | for every outcome of the attempts: the first working candidate wins and is shown, its launch, context and page end the log, all fail only if none works, candidates are launched in order, and the log follows the protocol |
| `BrowserLauncher.Candidates` | rpa-engine/scripts/probe_tiandy_prod_readonly.py:765-773 | the requested channel comes first, the bundled browser for an empty value and two names, each fallback is in, none twice |
| `BrowserLauncher.CandidatesAre` | rpa-engine/scripts/probe_tiandy_prod_readonly.py:765-773 | the whole list in its order, for every request |
| `BrowserLauncher.CandidateCount` | rpa-engine/scripts/probe_tiandy_prod_readonly.py:770-773 | four or five candidates, and when which |
| `BrowserLauncher.ReplayPrefix` | rpa-engine/scripts/probe_tiandy_prod_readonly.py:775-792 | the protocol holds at every moment of the log |
| `BrowserLauncher.ClosedBeforeNextLaunch` | rpa-engine/scripts/probe_tiandy_prod_readonly.py:785-792 | before a later launch comes the close of a browser that failed, or a launch that gave none |
| `BrowserLauncher.IdleIsClosed` | rpa-engine/scripts/probe_tiandy_prod_readonly.py:785-793 | when all have failed the last browser is closed too |
| `PublishPipeline.Publisher.PublishJob` | rpa-engine/scripts/_publish_demo_ocr_flows.py:47-103 | the effects of one job, cut at the first step that raises, and the receipt it returns |
| `PublishPipeline.Publisher.PublishAll` | rpa-engine/scripts/_publish_demo_ocr_flows.py:44-107 | the log and the files of a whole run; the combined file is written if and only if every job went well |
| `PublishPipeline.JobFiles` | rpa-engine/scripts/_publish_demo_ocr_flows.py:48-87 | a job leaves its receipt file if and only if it was built, uploaded, validated and published |
| `PublishPipeline.JobGoesAsFar` | rpa-engine/scripts/_publish_demo_ocr_flows.py:47-103 | a job does a step if and only if all calls up to it are answered well |
| `PublishPipeline.EndedRun` | rpa-engine/scripts/_publish_demo_ocr_flows.py:47-103 | a run that a job ends has done all of the jobs before it, and what that job did |
| `PublishPipeline.CompleteRun` | rpa-engine/scripts/_publish_demo_ocr_flows.py:47-107 | a complete run has done all of every job, and the combined file |
| `PublishPipeline.InFilesIff` | rpa-engine/scripts/_publish_demo_ocr_flows.py:86-87 | the files left are those written |
| `PublishPipeline.NewestInFile` | rpa-engine/scripts/_publish_demo_ocr_flows.py:86-87 | each holds the receipt written there last |
| `PublishPipeline.LogSteps` | rpa-engine/scripts/_publish_demo_ocr_flows.py:47-106 | which step of which job stands at any position of any log |
| `PublishPipeline.ReceiptComesLast` | rpa-engine/scripts/_publish_demo_ocr_flows.py:48-87 | a receipt follows the build of its job and the upload, validation and publication of one id, in that order and with nothing between |
| `PublishPipeline.ReceiptNames` | rpa-engine/scripts/_publish_demo_ocr_flows.py:78-87 | a receipt names that id if and only if the publish reply gives none or the same, and else the id of the reply; so too for the checksum of the upload and the version in the name of the file |
| `PublishPipeline.CombinedNames` | rpa-engine/scripts/_publish_demo_ocr_flows.py:103-106 | the same for every entry of the combined file |
| `PublishPipeline.ReceiptNamesAnother` | rpa-engine/scripts/_publish_demo_ocr_flows.py:81-81 | a concrete complete run whose receipt and combined file name an id that was never uploaded, validated or published |
| `PublishPipeline.ReceiptsArePrefix` | rpa-engine/scripts/_publish_demo_ocr_flows.py:47-103 | cut the run anywhere: the receipts so far are those of the first jobs, one each, in order |
| `PublishPipeline.CombinedComesLast` | rpa-engine/scripts/_publish_demo_ocr_flows.py:89-107 | the combined file is the last effect; every job has passed validate-binding, and its entries match the jobs one to one in order |
| `ReceiptMerge.MergeReceipts` | rpa-engine/scripts/publish_statement_flows.py:146-152 | the two loops compute the merge |
| `ReceiptMerge.MergeDescribes` | rpa-engine/scripts/publish_statement_flows.py:146-152 | one entry per flow id: the old ids by first appearance, then the new ids in package order, each with its newest entry |
| `ReceiptMerge.PublishedWins` | rpa-engine/scripts/publish_statement_flows.py:146-152 | a flow published in this run has its newest result, every other its old entry |
| `ReceiptMerge.MergeAgain` | rpa-engine/scripts/publish_statement_flows.py:146-152 | merging the same results again changes nothing |
| `CurlReply.FrameRecovers` | rpa-engine/scripts/publish_statement_flows.py:35-43 | for every body, line breaks included, and every status, the framing recovers both |
| `CurlReply.UnframedIsBody` | rpa-engine/scripts/publish_statement_flows.py:35-43 | output whose last line is no number is all body and taken as a success |
| `CurlReply.BlankStatusIsBody` | rpa-engine/scripts/publish_statement_flows.py:35-39 | a blank last line, or no output, is a success with the text before it |
| `CurlReply.PaddedStatus` | rpa-engine/scripts/publish_statement_flows.py:35-42 | white space around the status does not matter, nor does a missing body |
| `CurlReply.FailedCurlIsError` | rpa-engine/scripts/publish_statement_flows.py:31-34 | a curl that fails is an error, and nothing else is that error |

## Left out

- Page driving, DOM queries, captcha recognition and screenshots; the portal's tables are values here, and the outcome of each browser launch step is a parameter.
- HTTP, file upload and the build of packages: the engine's replies are parameters of `PublishPipeline`, and a call or field that raises is an absent reply.
- SQL, sessions and commits beyond their effect: a script works on values taken from the tables and either stores them or leaves the tables alone.
- Rows come out of a query in table order, as the scripts ask for no order. The sample template of the production bind is the first live one for the same reason.
- Config and summary columns hold the document that parsing them gives; the JSON parser and printer are not part of this model.
- `normalize_checksum`: receipts carry the normalised checksum. Fresh ids are parameters. Two inserted rows may get the same id; no result depends on it.
- Display fields of the seeded template (name, description, schemas), names of scheduler jobs and the time of deletion; `live` says whether a row is deleted.
- `str.casefold`, percent-encoding, the JSON string form and Base64 are arbitrary functions: the results hold for any such functions.
- The characters above ASCII that count as word characters are an arbitrary set; `str.isspace` and the line boundaries of `str.splitlines` are spelled out.
- Reading and writing of flow.py: universal newlines, encodings and errors. Also the other files that `patch_flow` touches (manifest, README, tests).
- `Redaction.GuaranteeIffClean`: the condition is per secret, over every list it may stand in. For one fixed list an unclean secret may be safe through another listed secret; `Redaction.HiddenByPart` gives one such case, and no exact condition per list is stated.
- `Redaction.OutputIsMaskedInput`: for clean secrets only, since an unclean one can match text that is partly mask.
- `RedactingStream.ShownIffEscapes`: for clean secrets only, for the same reason.
- `RedactingStream.RedactingTextStream.Write`: `flush` and the other attributes of the wrapped stream.
- `Credentials.CredentialScalarValues`: mappings and lists are finite trees whose scalars carry their `str` form; a set is a list in its order of iteration.
- `ArtifactPaths.LocalArtifactSink.Copy`: the last path component of the given name is a parameter (stripping it is not); symbolic links, reserved names and races are not modelled, and the content is a text whose length is its size.
- `_load_local_configuration`, the event sink and the run of the flow itself.
- `PortalTable.FindUnchecked`: keys and values of a row are texts, already in their `str` form.
- `BrowserLauncher.LaunchBrowser`: the environment value arrives stripped and in lower case, and the error texts are not kept.
- `CurlReply.FrameRecovers`: statuses have three ASCII digits, as curl writes them; digits of other scripts, the JSON parse of the body and the text of errors are not modelled.
- `ReceiptMerge.MergeReceipts`: a receipt is a flow id and the rest of it as one text; the selection of packages from the command line would add easy members only.
- `BindingRuns.OnlySwitchesReachDemo`: stated for bindings of portals that are not official (no official URL, no production name); the others are what the scripts write.
- `StatementReset.StatementDatabase.ResetOne`: amounts are whole hundredths, and the note of the history row is left out.
- The scripts for other versions: same shape with other constants.
- `should_block_probe_write`: one expression, it would add an easy member.
- What the engine itself does with leases, callbacks and the flow registry: its code is not part of this repository's scripts.
