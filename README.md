# iso-agent document pipeline, modelled in Dafny

This project models the two core scripts of the iso-agent repository:

- **async_processing.py** converts PDFs to markdown in batches.
  - It walks an input tree (`list_directories`).
  - For each directory it uploads the PDFs whose markdown output is still missing (`send_files`).
  - It polls the extraction service for each record until the record completes, fails or times out (`poll_result`).
  - It takes the markdown out of the completed payload (`extract_markdown_content`) and saves it under the output tree (`poll_and_save_record`).
  - `process_directory` labels each directory "No Content", "Failed", "No Successful Records" or "OK", and `main` returns those labels in directory order.
- **helper_v3.py** turns the converted markdown into a document tree with YAML front matter.
  - `normalize`, `classify_doc` and `generate_doc_id` derive slugs, document classes and IDs from file names.
  - `create_output_file` writes a header, a blank line and the content.
  - `process_regulations` writes every regulation with its processes, guidelines and handbooks, and records their IDs as the regulation's `children`.
  - `process_additional_handbooks` writes one corporate handbook per listed file.

The models are built as follows:
- The file system is the value `FileStore.Disk`, which is a map of files plus a set of directories. The class `FileStore.Store` is its mutable form, and the operations that write files are methods on it.
- The input tree that `os.walk` and `glob` read is the value `DirWalk.Dir`.
- Each network endpoint is a function parameter:
  - the batch upload maps the list of uploaded files to a response;
  - the results endpoint maps a record ID and an attempt number to a response and its latency.
- Time is counted in ticks: each attempt costs its latency plus the sleep interval.
- Every loop of the modelled functions is a method with loop invariants. Each method is proved equal to a function of the inputs and the old disk, and the properties the scripts promise are lemmas about those functions:
  - re-runs skip finished work;
  - every PDF whose output is missing, and only those, is uploaded;
  - saved files are found again on the next run;
  - labels come back in directory order;
  - the document classifier follows its keyword priority;
  - the children list names every child in order.

Two facts about the code shape the model:
- `list_directories` never lists the root directory itself; only directories strictly below it are listed.
- Not every exception is caught per record. Some escape `poll_and_save_record`, such as the ValueError of `with_suffix` on an empty name and the TypeError of `write_text` on non-string markdown. Such an exception propagates out of both `gather` calls and ends the run.

## Model

| member | source | states |
|---|---|---|
| DirWalk.ListDirectories | async_processing.py:23-29 | the nested loop over the `os.walk` entries returns exactly the joined paths of every entry's sub-directory names, in walk order |
| DirWalk.ListedIffBelow | async_processing.py:23-29 | a path is listed iff it lies strictly below the root and the names after the root lead to a directory of the tree; the root itself is never listed |
| DirWalk.ListedIsBelow | async_processing.py:26-28 | every listed path is the root extended by the names of a real descent in the tree |
| DirWalk.BelowIsListed | async_processing.py:26-28 | every directory strictly below the root is listed |
| DirWalk.ListedUnderKids | async_processing.py:26-28 | the walk of a list of sub-directories lists exactly what the walk of one of them lists |
| DirWalk.ListedUnderNode | async_processing.py:26-28 | a directory's walk lists its own sub-directories first, then what is below each of them |
| DirWalk.JoinedAppend | async_processing.py:26-28 | the paths collected from two runs of walk entries are the concatenation of each run's paths |
| Submission.SendFiles | async_processing.py:32-74 | `send_files` raises ValueError for a directory outside the input root; otherwise it creates the output directory, queues the PDFs whose `stem + ".md"` is missing, returns None when nothing is pending or the upload fails, and returns the out path and decoded body otherwise |
| Submission.PendingIff | async_processing.py:39-47 | a file is queued iff it is one of the listed PDFs and its markdown output does not exist |
| Submission.PendingStep | async_processing.py:40-47 | one more iteration of the skip loop appends the file exactly when its output is missing |
| Submission.PendingInDirectory | async_processing.py:39-47 | the pending list is no longer than the PDF list, and every queued path is a PDF of that directory |
| Submission.NothingPendingIffAllDone | async_processing.py:39-50 | nothing is pending iff every PDF already has its markdown output |
| Submission.PendingShrinks | async_processing.py:40-45 | when files are only added to the disk, a file pending afterwards was pending before |
| Submission.PendingAfterMakeDirs | async_processing.py:36-43 | creating the output directory does not change which files are pending |
| Submission.SendWhenAllDone | async_processing.py:32-50 | when every PDF has its output, `send_files` uploads nothing, returns None and only creates the output directory |
| Submission.FindKid | async_processing.py:34 | the sub-directory lookup finds the first child with that name, and None means no child has it |
| Submission.PdfFiles | async_processing.py:34 | `glob("*.pdf")` keeps exactly the names that end in ".pdf" |
| Polling.PollResult | async_processing.py:77-108 | the polling loop retries transport errors and unfinished statuses while the elapsed time is below `max_wait`; it returns the completed payload, reports a failed job, times out, or fails on a body that is not an object |
| Polling.Judge | async_processing.py:92-104 | a completed verdict carries the decoded object itself, whose status is "completed"; a body that is not an object is malformed, status "failed" is a failed job, and a transport error or any other status retries (each an iff); no single answer means a time-out |
| Polling.CompletedOnlyWhenCompleted | async_processing.py:98-100 | a completed outcome is the exact body of some attempt whose status is "completed" |
| Polling.FirstVerdictDecides | async_processing.py:84-106 | when the first attempt that does not retry starts before `max_wait`, the poll ends with that attempt's verdict: the completed payload, a failed job or a malformed body |
| Polling.TimedOutIff | async_processing.py:84-108 | the poll times out iff every attempt that starts before `max_wait` is answered with a retry |
| Polling.ClockMonotone | async_processing.py:84-106 | a later attempt never starts earlier: each retry adds its latency and one sleep |
| Polling.UnreachableTimesOut | async_processing.py:84-108 | when every attempt fails in transport, the poll ends in a time-out |
| Polling.AttemptsBounded | async_processing.py:84-106 | the outcome depends only on the first `Budget` attempts: two endpoints that agree on those give the same outcome |
| Polling.BudgetMonotone | async_processing.py:84 | later starts leave no more attempts |
| Polling.BudgetStep | async_processing.py:84-106 | each retry uses up at least one attempt of the budget |
| Polling.ExtractMarkdown | async_processing.py:111-116 | a missing `result`, `markdown` or `content` key of an object on the path raises the KeyError "Markdown content missing in poll result"; a `result` or `markdown` value that is not an object raises TypeError; no other error is raised |
| Polling.ExtractMarkdownIff | async_processing.py:111-116 | extraction returns a value iff `result.markdown.content` is present along a path of objects, and the value is that content; the round trip from a payload built around the content gives the content back |
| Paths.OutputFileName | async_processing.py:126-127 | `Path(filename).with_suffix(".md").name` raises ValueError iff the name is empty; otherwise it is a single component that ends in ".md" and keeps the name's stem |
| Paths.OutputFileNameOfBareName | async_processing.py:127 | for a bare file name the output name is `stem + ".md"` |
| Paths.OutputFileNameIdempotent | async_processing.py:127 | deriving the output name of an output name gives it back unchanged |
| Paths.StemSplitsName | async_processing.py:41 | stem followed by suffix is the name, and a non-empty name has a non-empty stem |
| Paths.StemOfMarkdownName | async_processing.py:127 | appending ".md" to a stem gives the suffix ".md" and the same stem |
| Paths.NameOfBareName | async_processing.py:127 | a single component is its own `.name` |
| Pipeline.RecordTarget | async_processing.py:121-127 | a record without a truthy `record_id` is skipped; a saved name is a single component ending in ".md"; only TypeError or ValueError escape the name derivation |
| Pipeline.PollAndSaveRecord | async_processing.py:119-145 | the skip on a missing id, the `filename or record_id.md` fallback, the caught poll and extraction failures, and the single write of the markdown to `output_dir / name` |
| Pipeline.SaveRecordWritesOnce | async_processing.py:119-145 | a saved record writes exactly one file, directly inside the output directory, under the derived name, and its text is the markdown content of the completed poll; every other outcome leaves the disk unchanged |
| Pipeline.CompletedRecordIsSaved | async_processing.py:126-145 | a record with an output name whose poll completes with string markdown is saved: that markdown is written to `output_dir / name` and the path is returned |
| Pipeline.NoRecordIdSkipsPolling | async_processing.py:121-124 | a record without a truthy id returns None and never polls |
| Pipeline.UnfinishedPollSavesNothing | async_processing.py:130-140 | a failed, timed-out or malformed poll saves nothing and returns None |
| Pipeline.ContentlessPollSavesNothing | async_processing.py:130-140 | a completed poll without `result.markdown.content` raises KeyError or TypeError in the extraction, which `except Exception` catches: None, nothing written |
| Pipeline.SavedRecordIsSkippedNextRun | async_processing.py:126-145 | the file a record with a bare file name is saved to is exactly the output the next run's skip check looks for |
| Pipeline.BareFileNameTarget | async_processing.py:126-127 | for a bare file name the record's target is `stem + ".md"` |
| Pipeline.RecordIdFallback | async_processing.py:126-127 | without a truthy filename, a record whose id is a bare name is saved as `record_id + ".md"` |
| Pipeline.SaveRecords | async_processing.py:168-170 | the records are awaited in order, and the first exception that escapes a record ends the batch |
| Pipeline.SaveAllStops | async_processing.py:168-170 | once a record has raised, the later records change nothing |
| Pipeline.SuccessfulRecordsIff | async_processing.py:161-163 | the filter raises iff some item is not an object; otherwise it keeps exactly the records whose `success` is truthy |
| Pipeline.SuccessfulRecordsSnoc | async_processing.py:161-163 | one more item extends the kept records by its fields iff it is an object with a truthy `success`; a non-object item raises AttributeError; so the kept records follow the order of the items |
| Pipeline.PlanBatch | async_processing.py:156-166 | a finished plan is tagged "Failed" or "No Successful Records"; a plan to poll has at least one record |
| Pipeline.PlanBatchTags | async_processing.py:156-166 | a falsy result becomes `{}` and gives "Failed"; a truthy non-object result raises AttributeError; an exception escapes iff that happens or the records filter raises; "Failed" iff the result is falsy or its `success` is not truthy; "No Successful Records" iff `success` is truthy and no record succeeded; every polled record has a truthy `success` |
| Pipeline.ProcessDirectory | async_processing.py:148-171 | `process_directory` is `send_files` followed by the tag chain and the saving of the successful records |
| Pipeline.HandleSubmission | async_processing.py:153-171 | None gives "No Content"; otherwise the plan's tag is returned, or "OK" after every record has been saved |
| Pipeline.ProcessAllDirectories | async_processing.py:174-178 | `main` returns one tag per directory, each computed on the disk that the earlier directories left |
| Pipeline.RunMainStep | async_processing.py:177-178 | one more directory appends its tag, or ends the run with its exception |
| Pipeline.RunMainStops | async_processing.py:177-178 | after an exception, later directories change nothing |
| Pipeline.MainTagsInOrder | async_processing.py:177-178 | there are as many tags as directories, and tag i is the result of processing directory i |
| Pipeline.MainTagAt | async_processing.py:177-178 | tag i of a successful run is the result of directory i on the disk left by directories 0..i-1 |
| Pipeline.ConvertedDirectoryIsNoContent | async_processing.py:148-154 | a directory whose PDFs all have outputs is tagged "No Content" and only gains its output directory |
| Pipeline.ConvertedStaysConverted | async_processing.py:41-43 | once a directory is fully converted, adding files and directories keeps it converted |
| Pipeline.RerunChangesNoFile | async_processing.py:174-178 | re-running over fully converted directories tags every one "No Content" and writes or changes no file |
| Pipeline.RunMainQuiet | async_processing.py:177-178 | when every directory step leaves the files alone and returns "No Content", so does the whole run |
| Slug.Normalize | helper_v3.py:215-220 | the result uses only a-z, 0-9 and '-', has no "--", and does not start or end with '-' |
| Slug.SlugifyShape | helper_v3.py:219 | replacing runs of non-slug characters with '-' leaves only slug characters and single dashes; it starts with '-' only when the input starts with a non-slug character |
| Slug.StripKeepsShape | helper_v3.py:220 | `strip("-")` of such a string is a slug |
| Slug.SlugifyKeepsSingleDashes | helper_v3.py:219 | text made of slug characters and single dashes is unchanged by the substitution |
| Slug.NormalizeKeepsCleanSlug | helper_v3.py:215-220 | a slug that contains no vendor name, document code or version tag is its own normalization |
| Slug.NormalizeIsNotIdempotent | helper_v3.py:217-219 | "cs ab 1" normalizes to "cs-ab-1", which normalizes to "": the code pattern can only match once the dashes exist |
| Slug.EraseWithoutMatch | helper_v3.py:217-218 | deleting a pattern that matches nowhere changes nothing |
| Slug.SlugifyWordBreak | helper_v3.py:219 | a word, one separator and a word becomes the two words joined by '-' |
| Slug.DigitRun | helper_v3.py:217-218 | `\d+` takes exactly the leading run of digits |
| Naming.ClassifyDocIsFirstMatch | helper_v3.py:222-236 | `classify_doc` is a first-match scan of the keyword table over the lower-cased name |
| Naming.ClassifyDocByPriority | helper_v3.py:222-236 | the class is rule i iff rule i's keyword occurs and no earlier rule's does, and "document" iff no keyword occurs |
| Naming.FirstMatchPicks | helper_v3.py:224-235 | the scan picks rule i iff rule i matches and no earlier rule does |
| Naming.FirstMatchSkips | helper_v3.py:224-235 | a scan that starts after rule i never returns rule i's class |
| Naming.FirstMatchDefault | helper_v3.py:236 | the scan falls through to "document" iff no remaining rule matches |
| Naming.ClassesDistinct | helper_v3.py:224-236 | the seven classes are pairwise distinct |
| Naming.ClassifyDocLabels | helper_v3.py:222-236 | the class is one of the seven labels |
| Naming.ClassifyDocIgnoresCase | helper_v3.py:223 | upper-casing the name does not change its class |
| Naming.DocBase | helper_v3.py:239 | the base of an ID is a slug |
| Naming.DocIdIsUpperFirstParts | helper_v3.py:238-241 | the ID is "SEC-HB-CORP-" followed by the upper-cased first six dash-separated tokens of the base |
| Naming.DocIdShape | helper_v3.py:238-241 | the ID starts with "SEC-HB-CORP-"; its tail is an upper-cased prefix of the base that keeps all of the base's dashes when there are fewer than six, and otherwise stops before the sixth |
| Naming.UpperJoin | helper_v3.py:241 | joining the upper-cased tokens is upper-casing the joined tokens |
| Text.JoinSplit | helper_v3.py:240-241 | joining the split pieces with the separator gives the string back |
| Text.JoinFirstParts | helper_v3.py:240-241 | the first k pieces joined form a prefix that keeps the first k-1 separators, the whole string when there are fewer than k pieces, and otherwise stops just before the k-th separator |
| Text.Split | helper_v3.py:240 | `split` gives one more piece than there are separators, and no piece contains one |
| Text.SplitAppend | helper_v3.py:240 | splitting `a + sep + b`, where b has no separator, is a's pieces followed by b |
| Documents.Format | helper_v3.py:268-273 | `str.format` succeeds iff every field of the template is supplied, and otherwise raises KeyError naming a field the template uses that is missing |
| Documents.FormatIgnoresUnusedFields | helper_v3.py:268-273 | arguments the template does not use (such as `title`) change nothing |
| Documents.ChildHeadersFormat | helper_v3.py:342-374 | every child header is formatted without error |
| Documents.RegulationHeaderFormats | helper_v3.py:411-416 | the regulation header is formatted without error |
| Documents.OutputText | helper_v3.py:283-286 | with a header, the file is the header, "\n\n" and the content; without one, the content alone |
| Documents.CreateOutputFile | helper_v3.py:276-286 | the output directory is created and the file is written (over an existing one too) |
| Documents.CollectChildren | helper_v3.py:339-380 | the loop over one child kind builds one job per child, in order, with that kind's header, and appends "\n- " and the child's ID to `reg_children` for each child |
| Documents.CollectChild | helper_v3.py:341-352 | one iteration extends the jobs and the children text by exactly that child |
| Documents.ChildrenTextLines | helper_v3.py:334-380 | split on newlines, the children text is an empty line followed by one "- ID" line per child, in order |
| Documents.ChildrenTextAppend | helper_v3.py:352-367 | the children text of two lists is the concatenation of their texts |
| Documents.DocIdOfMarkdownName | helper_v3.py:333 | removing ".md" from "x.md" gives x when x contains no ".md" |
| Documents.WriteJobs | helper_v3.py:383-408 | each job whose input exists is written with its header, in order; the others are skipped |
| Documents.JobWritesIff | helper_v3.py:383-408 | a write happens iff it belongs to a job whose input exists, and it carries that job's header and input text |
| Documents.ChildJobsIff | helper_v3.py:341-379 | the jobs are exactly one per child, with that child's header |
| Documents.ProcessRegulation | helper_v3.py:324-417 | one regulation writes its children, then itself, exactly as `RegulationWrites` lists |
| Documents.RegulationWritesInOrder | helper_v3.py:383-417 | processes, then guidelines, then handbooks, then the regulation itself with `children` listing all of them |
| Documents.RegulationWritesSplit | helper_v3.py:324-417 | a regulation writes nothing iff it is not mock and its input is missing; otherwise its children's files come first and its own file comes last |
| Documents.KindWritesIff | helper_v3.py:383-408 | the files written for one kind of child are exactly its children whose input exists |
| Documents.ChildWritesIff | helper_v3.py:383-408 | a child file is written iff some child of some kind has its input present |
| Documents.ProcessRegulations | helper_v3.py:321-417 | every regulation is processed in configuration order |
| Documents.ApplyWritesAppend | helper_v3.py:322-323 | writing two lists of files in turn is writing their concatenation |
| Documents.AllRegulationWritesStep | helper_v3.py:322-323 | one more regulation appends its own writes |
| Handbooks.ProcessAdditionalHandbooks | helper_v3.py:251-274 | the output directory is created; each listed name is skipped when its output exists or its input is missing, and otherwise its header is formatted and written |
| Handbooks.HandleEntry | helper_v3.py:255-274 | one iteration of the loop: skip, raise the formatting error, or write the handbook |
| Handbooks.EntriesOfNames | helper_v3.py:255-273 | the entry for name i has output `generate_doc_id(name) + ".md"`; its header raises KeyError('lang') when no language is given and succeeds when one is |
| Handbooks.HeaderWithoutLang | helper_v3.py:268-273 | formatting the corporate template without `lang` raises KeyError('lang') |
| Handbooks.HeaderWithLang | helper_v3.py:268-273 | with `lang` supplied, the corporate header formats |
| Handbooks.AdditionalHandbooksAsWritten | helper_v3.py:251-274 | as written, the run creates only the output directory and writes no file; it raises KeyError('lang') iff some entry is eligible |
| Handbooks.NamesAsWritten | helper_v3.py:251-274 | as written, a KeyError escapes iff some listed name has its input and no output yet, and no handbook is ever written |
| Handbooks.AdditionalHandbooksWithLang | helper_v3.py:251-274 | with a language, nothing escapes, no existing file changes, and every entry whose input exists has its output afterwards |
| Handbooks.NamesWithLang | helper_v3.py:251-274 | with a language, every listed name whose input exists ends with `doc_id + ".md"` on disk, and existing files are untouched |
| Handbooks.EscapeEndsRun | helper_v3.py:254-274 | after the first KeyError escapes, later names change nothing |
| Handbooks.EntriesAt | helper_v3.py:254-255 | entry i is derived from name i |
| FileStore.Store.MakeDirs | async_processing.py:37 | `mkdir(parents=True, exist_ok=True)` adds the directory and its ancestors and changes no file |
| FileStore.Store.WriteText | async_processing.py:143 | `write_text` sets that one file's text and leaves every other file and directory unchanged |

## Left out

- Network, asyncio and concurrency. Both endpoints are function parameters, and time is counted in ticks. The semaphore, the worker threads and the `API_KEY` header are not modelled.
- Pipeline.ProcessAllDirectories: directories are processed one after another. The first exception ends the run, as it ends the outer `gather`. Work that sibling tasks would still have done concurrently before `asyncio.run` cancels them is not modelled.
- Pipeline.ProcessAllDirectories: in the real program, once an exception escapes, `asyncio.run` also cancels directories and records that come before the failing one and are still polling, so they never write their files. The sequential model lets every earlier directory and record finish and write its file.
- Pipeline.SaveRecords: records are awaited in order, and the first escaping exception ends the batch. The interleaving of concurrent records is not modelled.
- Polling.PollResult: a body that is not JSON is treated as a `RequestException` and retried, which is what `requests` 2.27 and later raise (`requests.exceptions.JSONDecodeError`). With an older `requests`, `response.json()` raises a plain ValueError that escapes `poll_result`; `poll_and_save_record` then catches it and returns None. That older behaviour is not modelled.
- Polling.PollResult: requires `interval > 0`. Elapsed time advances only by latency plus interval, so with a zero interval and zero-latency answers the loop would not end. The source always calls it with 5.
- Console output is not modelled: the `print` calls, the "Skipping"/"Queueing" messages and the "SKIP:" lines.
- `create_output_file` prints "SKIP:" and still overwrites. The model keeps the overwrite and drops the message.
- Text is ASCII only. `str.lower`/`str.upper` and `\d` act on ASCII letters and digits; Unicode case mapping and Unicode digits are not modelled.
- Pipeline.RecordTarget: a `record_id` that is a list or an object is rendered as a placeholder rather than Python's `str()` of it. Numbers and strings are rendered as Python renders them; JSON floats are not modelled.
- File contents that `open()` cannot read, encoding errors, symlinks, permission errors and `mkdir` over an existing file are not modelled.
- Submission.PdfFiles: `glob("*.pdf")` is modelled over file names. A directory whose name ends in ".pdf" is not matched.
- Paths are modelled as lists of components joined with '/'. Windows backslash paths and file names that contain '/' are not modelled.
- Documents.ProcessRegulations: the regulations are given as one list, the values of the configuration dict concatenated in order.
- Documents.ProcessRegulations: input files are a map from the configured name to the file's text, standing in for `input_dir + '\\' + name`.
- Handbooks.ProcessAdditionalHandbooks: `Additional_HANDBOOKS` is an empty list in the source, so the list of names is a parameter.
- Handbooks.ProcessAdditionalHandbooks: the input path `'01. Chính sách và Sổ tay ATTT\\' + fname` is represented by the map of inputs, keyed by the listed name.
- `process_corp_handbooks`, `process_comp_handbooks`, `process_hr`, `read_json`, the overview text constants and the `__main__` block are not part of this model: they drive the configuration rather than the core.
- nano_api.py is not part of this model.
- Several steps are passed as function parameters: `ProcessWith`, `HeaderOf`, `WritesOf` and `EntryFor` fix the step that `RunMain`, `ChildJobs`, `AllRegulationWrites` and `Entries` apply. Lemmas about those functions hold for any step. The source has no such parameter.

## Findings

| source | as written | input that shows it | evidently intended | confidence | as-written member | corrected member |
|---|---|---|---|---|---|---|
| helper_v3.py:268-273 | `SEC_HB_CORP_TEMPLATE.format(...)` passes `doc_id`, `doc_class`, `metadata` and an unused `title`, but not `lang`, which the template uses at line 132 | any listed name whose input file exists and whose output does not: the KeyError('lang') escapes and no handbook is ever written | pass a language (as `process_corp_handbooks` does at line 298) so that every eligible handbook is written | high; not executed | Handbooks.NamesAsWritten | Handbooks.NamesWithLang |
