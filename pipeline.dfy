/** `poll_and_save_record`, `process_directory` and `main` of
    async_processing.py. Records of a batch and directories of a run are
    handled one after another, and an exception that escapes a record or a
    directory ends the run, as it ends the enclosing `gather`. */
module Pipeline {
  import opened Values
  import opened Text
  import opened Paths
  import opened FileStore
  import opened DirWalk
  import opened Submission
  import opened Polling

  /** The two endpoints: the batch upload, answered as a function of the
      uploaded files, and the results endpoint. */
  datatype Remote = Remote(batch: seq<Path> -> Response, status: Server)

  /** The label `process_directory` returns for a directory. */
  datatype Tag = NoContent | Failed | NoSuccessfulRecords | OK

  /** Result and disk after saving one record. */
  datatype RecordRun = RecordRun(result: Result<Option<Path>>, disk: Disk)

  /** Error (if one escaped) and disk after a sequence of steps. */
  datatype Run = Run(error: Option<PyError>, disk: Disk)

  /** Result and disk after one directory. */
  datatype DirRun = DirRun(result: Result<Tag>, disk: Disk)

  /** Result and disk after `main`. */
  datatype MainRun = MainRun(result: Result<seq<Tag>>, disk: Disk)

  /** `record.get("filename") or f"{record_id}.md"`. */
  function DeclaredFileName(record: map<string, Json>): Json {
    var filename := Get(record, "filename");
    if Truthy(filename) then filename
    else JStr(Render(Get(record, "record_id")) + ".md")
  }

  /** The output name of a record: None when the record has no usable id,
      otherwise `Path(filename).with_suffix(".md").name`. A filename that is
      not a string makes `Path()` raise TypeError. */
  function RecordTarget(record: map<string, Json>): (r: Result<Option<string>>)
    ensures !Truthy(Get(record, "record_id")) ==> r == Ok(None)
    ensures r.Ok? && r.value.Some? ==> IsBareName(r.value.value) && EndsWith(r.value.value, ".md")
    ensures r.Raised? ==> r.error == TypeError || r.error == ValueError
  {
    if !Truthy(Get(record, "record_id")) then Ok(None)
    else match DeclaredFileName(record)
      case JStr(filename) =>
        (match OutputFileName(filename)
         case Ok(name) => Ok(Some(name))
         case Raised(e) => Raised(e))
      case _ => Raised(TypeError)
  }

  /** `poll_and_save_record(record, out_dir)`. Poll failures, time-outs and
      missing markdown are caught and give None; markdown that is not a
      string makes `write_text` raise TypeError before anything is written. */
  function SaveRecord(disk: Disk, record: map<string, Json>, outDir: Path, server: Server): RecordRun {
    match RecordTarget(record)
    case Raised(e) => RecordRun(Raised(e), disk)
    case Ok(None) => RecordRun(Ok(None), disk)
    case Ok(Some(name)) =>
      var id := Render(Get(record, "record_id"));
      match PollFrom(server, id, PollTimeout, PollInterval, 0, 0)
      case Completed(payload) =>
        (match ExtractMarkdown(payload)
         case Ok(JStr(text)) => RecordRun(Ok(Some(outDir + [name])), disk.Write(outDir + [name], text))
         case Ok(_) => RecordRun(Raised(TypeError), disk)
         case Raised(_) => RecordRun(Ok(None), disk))
      case _ => RecordRun(Ok(None), disk)
  }

  method PollAndSaveRecord(store: Store, record: map<string, Json>, outDir: Path, server: Server)
    returns (result: Result<Option<Path>>)
    modifies store
    ensures RecordRun(result, store.State()) == SaveRecord(old(store.State()), record, outDir, server)
  {
    var recordId := Get(record, "record_id");
    if !Truthy(recordId) {
      return Ok(None);
    }
    var outputFilename;
    match DeclaredFileName(record) {
      case JStr(filename) =>
        match OutputFileName(filename) {
          case Raised(e) => return Raised(e);
          case Ok(name) => outputFilename := name;
        }
      case _ => return Raised(TypeError);
    }
    var outcome := PollResult(server, Render(recordId), PollTimeout, PollInterval);
    if !outcome.Completed? {
      return Ok(None);
    }
    var markdown := ExtractMarkdown(outcome.payload);
    if markdown.Raised? {
      return Ok(None);
    }
    var destination := outDir + [outputFilename];
    if !markdown.value.JStr? {
      return Raised(TypeError);
    }
    store.WriteText(destination, markdown.value.s);
    return Ok(Some(destination));
  }

  /** The records of a batch result whose `success` is truthy, in order:
      the list comprehension of `process_directory`. An item that is not an
      object makes `.get` raise AttributeError. */
  function SuccessfulRecords(items: seq<Json>): (r: Result<seq<map<string, Json>>>)
    decreases |items|
  {
    if items == [] then Ok([])
    else if !items[0].JObj? then Raised(AttributeError)
    else match SuccessfulRecords(items[1..])
      case Raised(e) => Raised(e)
      case Ok(rest) =>
        if Truthy(Get(items[0].fields, "success")) then Ok([items[0].fields] + rest) else Ok(rest)
  }

  /** `result_payload.get("records", [])` iterated: a missing key is an empty
      list; a string or an object is iterated over its characters or keys,
      which have no `.get`; null, a number or a boolean is not iterable. */
  function Records(payload: map<string, Json>): Result<seq<map<string, Json>>> {
    if "records" !in payload then Ok([])
    else match payload["records"]
      case JArr(items) => SuccessfulRecords(items)
      case JStr(s) => if s == "" then Ok([]) else Raised(AttributeError)
      case JObj(m) => if m == map[] then Ok([]) else Raised(AttributeError)
      case _ => Raised(TypeError)
  }

  /** What `process_directory` does with a submission's result: a final tag,
      or the records to poll. */
  datatype Plan = Done(tag: Tag) | PollAll(records: seq<map<string, Json>>)

  /** The branch chain of `process_directory` after a submission:
      `submission.get("result") or {}`, then the `success` test, then the
      filter of successful records. A truthy result that is not an object
      has no `.get`. */
  function PlanBatch(result: Json): (r: Result<Plan>)
    ensures r.Ok? && r.value.Done? ==> r.value.tag == Failed || r.value.tag == NoSuccessfulRecords
    ensures r.Ok? && r.value.PollAll? ==> r.value.records != []
  {
    var payload := if Truthy(result) then result else JObj(map[]);
    if !payload.JObj? then Raised(AttributeError)
    else if !Truthy(Get(payload.fields, "success")) then Ok(Done(Failed))
    else match Records(payload.fields)
      case Raised(e) => Raised(e)
      case Ok(records) => if records == [] then Ok(Done(NoSuccessfulRecords)) else Ok(PollAll(records))
  }

  /** The records awaited by `gather`, one after another, stopping at the
      first exception that escapes a record. */
  function SaveAll(disk: Disk, records: seq<map<string, Json>>, outDir: Path, server: Server): Run
    decreases |records|
  {
    if records == [] then Run(None, disk)
    else
      var before := SaveAll(disk, records[..|records| - 1], outDir, server);
      if before.error.Some? then before
      else
        var step := SaveRecord(before.disk, records[|records| - 1], outDir, server);
        if step.result.Raised? then Run(Some(step.result.error), step.disk) else Run(None, step.disk)
  }

  /** `process_directory(directory)`. */
  function ProcessDir(disk: Disk, tree: Dir, directory: Path, remote: Remote): DirRun {
    var sent := Send(disk, tree, directory, remote.batch);
    AfterSend(sent.result, sent.disk, remote.status)
  }

  /** `process_directory` once `send_files` has returned or raised. */
  function AfterSend(sent: Result<Option<Submitted>>, disk: Disk, server: Server): DirRun {
    match sent
    case Raised(e) => DirRun(Raised(e), disk)
    case Ok(None) => DirRun(Ok(NoContent), disk)
    case Ok(Some(submission)) =>
      match PlanBatch(submission.result)
      case Raised(e) => DirRun(Raised(e), disk)
      case Ok(Done(tag)) => DirRun(Ok(tag), disk)
      case Ok(PollAll(records)) =>
        var run := SaveAll(disk, records, submission.outPath, server);
        match run.error
        case Some(e) => DirRun(Raised(e), run.disk)
        case None => DirRun(Ok(OK), run.disk)
  }

  /** `process_directory` as the step `main` applies to each directory. */
  function ProcessWith(tree: Dir, remote: Remote): (Disk, Path) -> DirRun {
    (disk: Disk, directory: Path) => ProcessDir(disk, tree, directory, remote)
  }

  /** `main(directories)`: one tag per directory, in the order given, each
      directory processed by `process` on the disk the earlier ones left. */
  function RunMain(disk: Disk, directories: seq<Path>, process: (Disk, Path) -> DirRun): MainRun
    decreases |directories|
  {
    if directories == [] then MainRun(Ok([]), disk)
    else
      var before := RunMain(disk, directories[..|directories| - 1], process);
      if before.result.Raised? then before
      else
        var step := process(before.disk, directories[|directories| - 1]);
        match step.result
        case Raised(e) => MainRun(Raised(e), step.disk)
        case Ok(tag) => MainRun(Ok(before.result.value + [tag]), step.disk)
  }

  method ProcessDirectory(store: Store, tree: Dir, directory: Path, remote: Remote)
    returns (result: Result<Tag>)
    modifies store
    ensures DirRun(result, store.State()) == ProcessDir(old(store.State()), tree, directory, remote)
  {
    var submission, uploaded := SendFiles(store, tree, directory, remote.batch);
    result := HandleSubmission(store, submission, remote.status);
  }

  /** The part of `process_directory` after `send_files`. */
  method HandleSubmission(store: Store, submission: Result<Option<Submitted>>, server: Server)
    returns (result: Result<Tag>)
    modifies store
    ensures DirRun(result, store.State()) == AfterSend(submission, old(store.State()), server)
  {
    if submission.Raised? {
      return Raised(submission.error);
    }
    if submission.value.None? {
      return Ok(NoContent);
    }
    var plan := PlanBatch(submission.value.value.result);
    if plan.Raised? {
      return Raised(plan.error);
    }
    if plan.value.Done? {
      return Ok(plan.value.tag);
    }
    var error := SaveRecords(store, plan.value.records, submission.value.value.outPath, server);
    if error.Some? {
      return Raised(error.value);
    }
    return Ok(OK);
  }

  /** `gather` over the successful records, awaited in order. */
  method SaveRecords(store: Store, records: seq<map<string, Json>>, outPath: Path, server: Server)
    returns (error: Option<PyError>)
    modifies store
    ensures Run(error, store.State()) == SaveAll(old(store.State()), records, outPath, server)
  {
    var i := 0;
    while i < |records|
      invariant 0 <= i <= |records|
      invariant SaveAll(old(store.State()), records[..i], outPath, server) == Run(None, store.State())
    {
      assert records[..i + 1][..i] == records[..i];
      var saved := PollAndSaveRecord(store, records[i], outPath, server);
      if saved.Raised? {
        SaveAllStops(old(store.State()), records, i + 1, outPath, server);
        return Some(saved.error);
      }
      i := i + 1;
    }
    assert records[..i] == records;
    return None;
  }

  /** `main`: `process_directory` for every listed directory, gathered in
      the order of the list; the first exception ends the run. */
  method ProcessAllDirectories(store: Store, tree: Dir, directories: seq<Path>, remote: Remote)
    returns (result: Result<seq<Tag>>)
    modifies store
    ensures MainRun(result, store.State()) == RunMain(old(store.State()), directories, ProcessWith(tree, remote))
  {
    ghost var start := store.State();
    ghost var process := ProcessWith(tree, remote);
    var tags: seq<Tag> := [];
    var i := 0;
    while i < |directories|
      invariant 0 <= i <= |directories|
      invariant RunMain(start, directories[..i], process) == MainRun(Ok(tags), store.State())
    {
      ghost var before := store.State();
      var tag := ProcessDirectory(store, tree, directories[i], remote);
      assert process(before, directories[i]) == DirRun(tag, store.State());
      RunMainStep(start, directories, i, process);
      if tag.Raised? {
        RunMainStops(start, directories, i + 1, process);
        return Raised(tag.error);
      }
      tags := tags + [tag.value];
      i := i + 1;
    }
    assert directories[..i] == directories;
    return Ok(tags);
  }

  /** Once a record has raised, the later records are not awaited. */
  lemma {:induction false} SaveAllStops(disk: Disk, records: seq<map<string, Json>>, i: nat, outDir: Path, server: Server)
    requires i <= |records|
    requires SaveAll(disk, records[..i], outDir, server).error.Some?
    ensures SaveAll(disk, records, outDir, server) == SaveAll(disk, records[..i], outDir, server)
    decreases |records| - i
  {
    if i < |records| {
      assert records[..i + 1][..i] == records[..i];
      SaveAllStops(disk, records, i + 1, outDir, server);
    } else {
      assert records[..i] == records;
    }
  }

  /** Once a directory has raised, `main` raises and later directories are
      not processed. */
  lemma {:induction false} RunMainStops(disk: Disk, directories: seq<Path>, i: nat, process: (Disk, Path) -> DirRun)
    requires i <= |directories|
    requires RunMain(disk, directories[..i], process).result.Raised?
    ensures RunMain(disk, directories, process) == RunMain(disk, directories[..i], process)
    decreases |directories| - i
  {
    if i < |directories| {
      assert directories[..i + 1][..i] == directories[..i];
      RunMainStops(disk, directories, i + 1, process);
    } else {
      assert directories[..i] == directories;
    }
  }

  /** `main` after one more directory. */
  lemma RunMainStep(disk: Disk, directories: seq<Path>, i: nat, process: (Disk, Path) -> DirRun)
    requires i < |directories|
    ensures var before := RunMain(disk, directories[..i], process);
            var step := process(before.disk, directories[i]);
            RunMain(disk, directories[..i + 1], process)
            == if before.result.Raised? then before
               else if step.result.Raised? then MainRun(Raised(step.result.error), step.disk)
               else MainRun(Ok(before.result.value + [step.result.value]), step.disk)
  {
    assert directories[..i + 1][..i] == directories[..i];
  }

  // ----- properties -----

  /** A record without a truthy `record_id` is skipped without polling: the
      outcome is None whatever the results endpoint would answer. */
  lemma NoRecordIdSkipsPolling(disk: Disk, record: map<string, Json>, outDir: Path, s1: Server, s2: Server)
    requires !Truthy(Get(record, "record_id"))
    ensures SaveRecord(disk, record, outDir, s1) == SaveRecord(disk, record, outDir, s2) == RecordRun(Ok(None), disk)
  {
  }

  /** The outcome of polling a record's results, from the first attempt. */
  function RecordPoll(record: map<string, Json>, server: Server): PollOutcome {
    PollFrom(server, Render(Get(record, "record_id")), PollTimeout, PollInterval, 0, 0)
  }

  /** Saving a record writes at most one file, directly inside outDir, under
      a single-component ".md" name, and only when it returns that path; the
      text written is the markdown content of the completed poll. Every
      other outcome leaves the disk unchanged. */
  lemma SaveRecordWritesOnce(disk: Disk, record: map<string, Json>, outDir: Path, server: Server)
    ensures var run := SaveRecord(disk, record, outDir, server);
            && (run.result.Ok? && run.result.value.Some? ==>
                  var p := run.result.value.value;
                  && RecordTarget(record).Ok? && RecordTarget(record).value.Some?
                  && p == outDir + [RecordTarget(record).value.value]
                  && |p| == |outDir| + 1 && p[..|outDir|] == outDir
                  && IsBareName(p[|outDir|]) && EndsWith(p[|outDir|], ".md")
                  && RecordPoll(record, server).Completed?
                  && ExtractMarkdown(RecordPoll(record, server).payload).Ok?
                  && ExtractMarkdown(RecordPoll(record, server).payload).value.JStr?
                  && run.disk == disk.Write(p, ExtractMarkdown(RecordPoll(record, server).payload).value.s))
            && (!(run.result.Ok? && run.result.value.Some?) ==> run.disk == disk)
  {
    var run := SaveRecord(disk, record, outDir, server);
    if run.result.Ok? && run.result.value.Some? {
      var name := RecordTarget(record).value.value;
      assert run.result.value.value == outDir + [name];
      assert (outDir + [name])[..|outDir|] == outDir;
    }
  }

  /** Conversely, a record with an output name whose poll completes with
      string markdown is saved: that markdown is written to
      `output_dir / name` and the path is returned. */
  lemma CompletedRecordIsSaved(disk: Disk, record: map<string, Json>, outDir: Path, server: Server,
                               name: string, payload: map<string, Json>, markdown: string)
    requires RecordTarget(record) == Ok(Some(name))
    requires RecordPoll(record, server) == Completed(payload)
    requires ExtractMarkdown(payload) == Ok(JStr(markdown))
    ensures SaveRecord(disk, record, outDir, server)
         == RecordRun(Ok(Some(outDir + [name])), disk.Write(outDir + [name], markdown))
  {
  }

  /** A completed poll whose payload has no `result.markdown.content` path
      raises KeyError or TypeError in the extraction, which the handler
      catches: None is returned and nothing is written. */
  lemma ContentlessPollSavesNothing(disk: Disk, record: map<string, Json>, outDir: Path, server: Server,
                                    name: string, payload: map<string, Json>)
    requires RecordTarget(record) == Ok(Some(name))
    requires RecordPoll(record, server) == Completed(payload)
    requires ExtractMarkdown(payload).Raised?
    ensures SaveRecord(disk, record, outDir, server) == RecordRun(Ok(None), disk)
  {
  }

  /** A failed or timed-out poll writes nothing and returns None. */
  lemma UnfinishedPollSavesNothing(disk: Disk, record: map<string, Json>, outDir: Path, server: Server)
    requires RecordTarget(record).Ok?
    requires !RecordPoll(record, server).Completed?
    ensures SaveRecord(disk, record, outDir, server) == RecordRun(Ok(None), disk)
  {
  }

  /** A saved record whose declared filename is a bare file name is written
      exactly where the next run's submission step looks for it, so that
      file is not uploaded again. */
  lemma SavedRecordIsSkippedNextRun(disk: Disk, record: map<string, Json>, outDir: Path, server: Server, n: string)
    requires Get(record, "filename") == JStr(n) && IsBareName(n)
    requires SaveRecord(disk, record, outDir, server).result.Ok?
    requires SaveRecord(disk, record, outDir, server).result.value.Some?
    ensures SaveRecord(disk, record, outDir, server).disk.Exists(outDir + [MarkdownName(n)])
  {
    SaveRecordWritesOnce(disk, record, outDir, server);
    BareFileNameTarget(record, n);
  }

  /** A record with an id that is a bare name and no declared filename is
      saved as `record_id + ".md"`. */
  lemma RecordIdFallback(record: map<string, Json>, s: string)
    requires !Truthy(Get(record, "filename"))
    requires Get(record, "record_id") == JStr(s) && IsBareName(s)
    ensures RecordTarget(record) == Ok(Some(s + ".md"))
  {
    StemOfMarkdownName(s);
    NameOfBareName(s + ".md");
  }

  /** A record with an id and a bare declared filename is saved under that
      filename's stem and ".md". */
  lemma BareFileNameTarget(record: map<string, Json>, n: string)
    requires Get(record, "filename") == JStr(n) && IsBareName(n)
    requires Truthy(Get(record, "record_id"))
    ensures RecordTarget(record) == Ok(Some(MarkdownName(n)))
  {
    OutputFileNameOfBareName(n);
  }

  /** The filter keeps exactly the object items with a truthy `success`,
      and fails exactly when some item is not an object; the order is kept
      by `SuccessfulRecordsSnoc`. */
  lemma {:induction false} SuccessfulRecordsIff(items: seq<Json>)
    ensures SuccessfulRecords(items).Raised? <==> exists i :: 0 <= i < |items| && !items[i].JObj?
    ensures SuccessfulRecords(items).Ok? ==>
              forall m :: m in SuccessfulRecords(items).value
                <==> JObj(m) in items && Truthy(Get(m, "success"))
    decreases |items|
  {
    if items != [] {
      SuccessfulRecordsIff(items[1..]);
      assert items == [items[0]] + items[1..];
      if exists i :: 0 <= i < |items[1..]| && !items[1..][i].JObj? {
        var i :| 0 <= i < |items[1..]| && !items[1..][i].JObj?;
        assert !items[i + 1].JObj?;
      }
      if exists i :: 0 <= i < |items| && !items[i].JObj? {
        var i :| 0 <= i < |items| && !items[i].JObj?;
        if i > 0 {
          assert !items[1..][i - 1].JObj?;
        }
      }
    }
  }

  /** One more item extends the filtered records by that item's fields
      exactly when it is an object with a truthy `success`, so the records
      kept appear in the order of the items. */
  lemma {:induction false} SuccessfulRecordsSnoc(items: seq<Json>, x: Json)
    ensures SuccessfulRecords(items + [x])
         == if SuccessfulRecords(items).Raised? || !x.JObj? then Raised(AttributeError)
            else if Truthy(Get(x.fields, "success")) then Ok(SuccessfulRecords(items).value + [x.fields])
            else Ok(SuccessfulRecords(items).value)
    decreases |items|
  {
    if items == [] {
      assert items + [x] == [x] && [x][1..] == [];
      assert SuccessfulRecords(items) == Ok([]);
      assert SuccessfulRecords([x][1..]) == Ok([]);
      if x.JObj? {
        assert [x.fields] == [] + [x.fields];
        if Truthy(Get(x.fields, "success")) {
          assert SuccessfulRecords([x]) == Ok([x.fields] + []);
          assert [x.fields] + [] == [x.fields];
          assert SuccessfulRecords(items).value + [x.fields] == [x.fields];
        } else {
          assert SuccessfulRecords([x]) == Ok([]);
        }
      }
    } else {
      var whole := items + [x];
      assert whole[0] == items[0];
      assert whole[1..] == items[1..] + [x];
      SuccessfulRecordsSnoc(items[1..], x);
      SuccessfulRecordsRaisesAttribute(items);
      if items[0].JObj? && SuccessfulRecords(items[1..]).Ok? && x.JObj? && Truthy(Get(items[0].fields, "success"))
         && Truthy(Get(x.fields, "success")) {
        var rest := SuccessfulRecords(items[1..]).value;
        assert [items[0].fields] + (rest + [x.fields]) == ([items[0].fields] + rest) + [x.fields];
      }
    }
  }

  /** The only exception the filter raises is AttributeError. */
  lemma {:induction false} SuccessfulRecordsRaisesAttribute(items: seq<Json>)
    ensures SuccessfulRecords(items).Raised? ==> SuccessfulRecords(items).error == AttributeError
    decreases |items|
  {
    if items != [] {
      SuccessfulRecordsRaisesAttribute(items[1..]);
    }
  }

  /** The tag decisions of `process_directory` once a batch was submitted.
      A falsy result is replaced by `{}` and so is "Failed"; a truthy result
      that is not an object raises AttributeError at `.get`. For an object,
      "Failed" exactly when its `success` is falsy, "No Successful Records"
      exactly when it is truthy but no record is, and records are polled
      only when some record has a truthy `success`, each of them having one. */
  lemma PlanBatchTags(result: Json)
    ensures !Truthy(result) ==> PlanBatch(result) == Ok(Done(Failed))
    ensures Truthy(result) && !result.JObj? ==> PlanBatch(result) == Raised(AttributeError)
    ensures PlanBatch(result).Raised?
        <==> (Truthy(result) && !result.JObj?)
             || (result.JObj? && Truthy(Get(result.fields, "success")) && Records(result.fields).Raised?)
    ensures PlanBatch(result) == Ok(Done(Failed))
        <==> !Truthy(result) || (result.JObj? && !Truthy(Get(result.fields, "success")))
    ensures PlanBatch(result) == Ok(Done(NoSuccessfulRecords))
        <==> result.JObj? && Truthy(Get(result.fields, "success")) && Records(result.fields) == Ok([])
    ensures PlanBatch(result).Ok? && PlanBatch(result).value.PollAll? ==>
              forall m :: m in PlanBatch(result).value.records ==> Truthy(Get(m, "success"))
  {
    var plan := PlanBatch(result);
    if result.JObj? && plan.Ok? && plan.value.PollAll? && "records" in result.fields {
      var items := result.fields["records"];
      if items.JArr? {
        SuccessfulRecordsIff(items.items);
      }
    }
  }

  /** `main` returns one tag per directory, in input order; the tag of the
      i-th directory is the one `process_directory` gives it on the disk left
      by the directories before it. */
  lemma MainTagsInOrder(disk: Disk, directories: seq<Path>, process: (Disk, Path) -> DirRun)
    requires RunMain(disk, directories, process).result.Ok?
    ensures var tags := RunMain(disk, directories, process).result.value;
            && |tags| == |directories|
            && forall i :: 0 <= i < |directories| ==>
                 var before := RunMain(disk, directories[..i], process);
                 before.result.Ok? && process(before.disk, directories[i]).result == Ok(tags[i])
  {
    if directories != [] {
      MainTagAt(disk, directories, process, 0);
    }
    forall i | 0 <= i < |directories|
      ensures var before := RunMain(disk, directories[..i], process);
              before.result.Ok?
              && process(before.disk, directories[i]).result == Ok(RunMain(disk, directories, process).result.value[i])
    {
      MainTagAt(disk, directories, process, i);
    }
  }

  /** The tag of the i-th directory, one index at a time. */
  lemma {:induction false} MainTagAt(disk: Disk, directories: seq<Path>, process: (Disk, Path) -> DirRun, i: nat)
    requires i < |directories|
    requires RunMain(disk, directories, process).result.Ok?
    ensures |RunMain(disk, directories, process).result.value| == |directories|
    ensures RunMain(disk, directories[..i], process).result.Ok?
    ensures process(RunMain(disk, directories[..i], process).disk, directories[i]).result
         == Ok(RunMain(disk, directories, process).result.value[i])
    decreases |directories|
  {
    var n := |directories| - 1;
    var init := directories[..n];
    RunMainStep(disk, directories, n, process);
    assert directories[..n + 1] == directories;
    if i < n {
      MainTagAt(disk, init, process, i);
      assert init[..i] == directories[..i];
    } else if n > 0 {
      MainTagAt(disk, init, process, 0);
    }
  }

  /** Every PDF of the directory already has its markdown output. */
  predicate AllConverted(disk: Disk, tree: Dir, directory: Path) {
    UnderInput(directory) &&
    forall n :: n in Glob(tree, directory) ==> disk.Exists(OutputDir(directory) + [MarkdownName(n)])
  }

  /** A directory whose PDFs are all converted gets "No Content", uploads
      nothing and changes no file. */
  lemma ConvertedDirectoryIsNoContent(disk: Disk, tree: Dir, directory: Path, remote: Remote)
    requires AllConverted(disk, tree, directory)
    ensures ProcessDir(disk, tree, directory, remote)
         == DirRun(Ok(NoContent), disk.MakeDirs(OutputDir(directory)))
  {
    SendWhenAllDone(disk, tree, directory, remote.batch);
  }

  /** Re-running `main` when every PDF of every directory is converted tags
      every directory "No Content" and rewrites no file: the run is
      idempotent on finished work. */
  lemma RerunChangesNoFile(disk: Disk, tree: Dir, directories: seq<Path>, remote: Remote)
    requires forall i :: 0 <= i < |directories| ==> AllConverted(disk, tree, directories[i])
    ensures var run := RunMain(disk, directories, ProcessWith(tree, remote));
            && run.result.Ok? && |run.result.value| == |directories|
            && (forall i :: 0 <= i < |directories| ==> run.result.value[i] == NoContent)
            && run.disk.files == disk.files
            && Grows(disk, run.disk)
  {
    var process := ProcessWith(tree, remote);
    forall d: Disk, i | 0 <= i < |directories| && d.files == disk.files && Grows(disk, d)
      ensures process(d, directories[i]).result == Ok(NoContent)
      ensures process(d, directories[i]).disk.files == d.files && Grows(d, process(d, directories[i]).disk)
    {
      ConvertedStaysConverted(disk, d, tree, directories[i]);
      ConvertedDirectoryIsNoContent(d, tree, directories[i], remote);
    }
    RunMainQuiet(disk, directories, process);
  }

  /** A run in which every directory, on any disk with the starting files,
      gets "No Content" and changes no file. */
  lemma {:induction false} RunMainQuiet(disk: Disk, directories: seq<Path>, process: (Disk, Path) -> DirRun)
    requires forall d: Disk, i :: 0 <= i < |directories| && d.files == disk.files && Grows(disk, d) ==>
               && process(d, directories[i]).result == Ok(NoContent)
               && process(d, directories[i]).disk.files == d.files
               && Grows(d, process(d, directories[i]).disk)
    ensures var run := RunMain(disk, directories, process);
            && run.result.Ok? && |run.result.value| == |directories|
            && (forall i :: 0 <= i < |directories| ==> run.result.value[i] == NoContent)
            && run.disk.files == disk.files
            && Grows(disk, run.disk)
    decreases |directories|
  {
    if directories != [] {
      var n := |directories| - 1;
      var init := directories[..n];
      assert forall i :: 0 <= i < n ==> init[i] == directories[i];
      RunMainQuiet(disk, init, process);
      RunMainStep(disk, directories, n, process);
      assert directories[..n + 1] == directories;
    }
  }

  lemma ConvertedStaysConverted(a: Disk, b: Disk, tree: Dir, directory: Path)
    requires Grows(a, b)
    requires AllConverted(a, tree, directory)
    ensures AllConverted(b, tree, directory)
  {
  }
}
