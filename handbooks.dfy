/** `process_additional_handbooks` of helper_v3.py: one corporate handbook
    per listed file name, with its ID from `generate_doc_id`, its class from
    `classify_doc` and its metadata from the normalized name. The list is a
    parameter; input files are a map from the listed name to the file's
    text. */
module Handbooks {
  import opened Values
  import opened Text
  import opened Slug
  import opened Paths
  import opened FileStore
  import opened Naming
  import opened Documents

  /** The fields the header is formatted with: the ID, the class, the
      metadata (the normalized name with spaces for dashes), a `title` the
      template does not use, and `lang` when a language is given (the source
      gives none). */
  function HandbookFields(fname: string, lang: Option<string>): map<string, string> {
    HeaderFields(GenerateDocId(fname), ClassifyDoc(fname),
                 ReplaceAll(Normalize(ReplaceAll(fname, ".md", "")), "-", " "), ReplaceAll(fname, ".md", ""), lang)
  }

  function HeaderFields(docId: string, docClass: string, metadata: string, title: string, lang: Option<string>): map<string, string> {
    var fields := map["doc_id" := docId, "doc_class" := docClass, "metadata" := metadata, "title" := title];
    match lang
    case None => fields
    case Some(l) => fields["lang" := l]
  }

  /** What the loop derives from one listed name: the output file name and
      what formatting its header gives. `format` is pure, so the header is a
      value here; it only escapes when the loop reaches it. */
  datatype HandbookEntry = HandbookEntry(fname: string, outName: string, header: Result<string>)

  function EntryOf(fname: string, lang: Option<string>): HandbookEntry {
    HandbookEntry(fname, GenerateDocId(fname) + ".md", Format(SecHbCorp, HandbookFields(fname, lang)))
  }

  /** The derivation the loop applies to each listed name. */
  function EntryFor(lang: Option<string>): string -> HandbookEntry {
    fname => EntryOf(fname, lang)
  }

  /** The entries of the listed names, in order. */
  function Entries(names: seq<string>, derive: string -> HandbookEntry): (entries: seq<HandbookEntry>)
    ensures |entries| == |names|
    decreases |names|
  {
    if names == [] then []
    else Entries(names[..|names| - 1], derive) + [derive(names[|names| - 1])]
  }

  /** `OUTPUT_DIR / f"{doc_id}.md"`. */
  function HandbookOutput(outDir: Path, e: HandbookEntry): Path {
    outDir + [e.outName]
  }

  /** What the call does: the exception that escapes it, if any, and the
      disk afterwards. */
  datatype HandbookRun = HandbookRun(escaped: Option<PyError>, disk: Disk)

  /** One entry: skipped when an exception has already escaped, when its
      output exists or when its input does not; otherwise its header is
      formatted, and a KeyError from `format` escapes before anything is
      written for it. */
  function HandbookStep(prev: HandbookRun, e: HandbookEntry, inputs: map<string, string>, outDir: Path): HandbookRun {
    var out := HandbookOutput(outDir, e);
    if prev.escaped.Some? || prev.disk.Exists(out) || e.fname !in inputs then prev
    else match e.header
      case Raised(err) => HandbookRun(Some(err), prev.disk)
      case Ok(header) => HandbookRun(None, prev.disk.Write(out, OutputText(Some(header), inputs[e.fname])))
  }

  /** The run over the entries, after the output directory is created. */
  function AdditionalHandbooks(disk: Disk, entries: seq<HandbookEntry>, inputs: map<string, string>, outDir: Path): HandbookRun
    decreases |entries|
  {
    if entries == [] then HandbookRun(None, disk.MakeDirs(outDir))
    else HandbookStep(AdditionalHandbooks(disk, entries[..|entries| - 1], inputs, outDir),
                      entries[|entries| - 1], inputs, outDir)
  }

  /** The body of the loop for one entry. */
  method HandleEntry(store: Store, e: HandbookEntry, inputs: map<string, string>, outDir: Path)
    returns (escaped: Option<PyError>)
    modifies store
    ensures HandbookStep(HandbookRun(None, old(store.State())), e, inputs, outDir) == HandbookRun(escaped, store.State())
  {
    var outputFile := HandbookOutput(outDir, e);
    if store.Exists(outputFile) {
      return None;
    }
    if e.fname !in inputs {
      return None;
    }
    var content := inputs[e.fname];
    if e.header.Raised? {
      return Some(e.header.error);
    }
    store.WriteText(outputFile, OutputText(Some(e.header.value), content));
    return None;
  }

  /** `process_additional_handbooks(out_dir)` over the list `names`. The
      source formats without a language (`lang` is None); a language makes
      the header complete. */
  method ProcessAdditionalHandbooks(store: Store, names: seq<string>, inputs: map<string, string>,
                                    outDir: Path, lang: Option<string>)
    returns (escaped: Option<PyError>)
    modifies store
    ensures AdditionalHandbooks(old(store.State()), Entries(names, EntryFor(lang)), inputs, outDir) == HandbookRun(escaped, store.State())
  {
    store.MakeDirs(outDir);
    escaped := None;
    var i := 0;
    while i < |names|
      invariant 0 <= i <= |names| && escaped.None?
      invariant AdditionalHandbooks(old(store.State()), Entries(names[..i], EntryFor(lang)), inputs, outDir) == HandbookRun(None, store.State())
    {
      escaped := HandleName(store, old(store.State()), names, i, inputs, outDir, lang);
      if escaped.Some? {
        EntriesPrefix(names, EntryFor(lang), i + 1);
        EscapeEndsRun(old(store.State()), Entries(names, EntryFor(lang)), inputs, outDir, i + 1);
        return;
      }
      i := i + 1;
    }
    assert names[..i] == names;
  }

  /** One pass of the loop, for `names[i]`: the run over the names before
      it, extended by its entry. */
  method HandleName(store: Store, ghost start: Disk, names: seq<string>, i: nat, inputs: map<string, string>,
                    outDir: Path, lang: Option<string>)
    returns (escaped: Option<PyError>)
    requires i < |names|
    requires AdditionalHandbooks(start, Entries(names[..i], EntryFor(lang)), inputs, outDir) == HandbookRun(None, store.State())
    modifies store
    ensures AdditionalHandbooks(start, Entries(names[..i + 1], EntryFor(lang)), inputs, outDir) == HandbookRun(escaped, store.State())
  {
    var entry := NextEntry(names, i, lang);
    RunStep(start, Entries(names[..i], EntryFor(lang)), entry, inputs, outDir);
    escaped := HandleEntry(store, entry, inputs, outDir);
  }

  method NextEntry(names: seq<string>, i: nat, lang: Option<string>) returns (entry: HandbookEntry)
    requires i < |names|
    ensures Entries(names[..i + 1], EntryFor(lang)) == Entries(names[..i], EntryFor(lang)) + [entry]
  {
    entry := EntryOf(names[i], lang);
    EntriesSnoc(names, i, EntryFor(lang));
  }

  /** The entries of one more name end with that name's entry. */
  lemma EntriesSnoc(names: seq<string>, i: nat, derive: string -> HandbookEntry)
    requires i < |names|
    ensures Entries(names[..i + 1], derive) == Entries(names[..i], derive) + [derive(names[i])]
  {
    assert names[..i + 1][..i] == names[..i];
  }

  lemma RunStep(disk: Disk, entries: seq<HandbookEntry>, e: HandbookEntry, inputs: map<string, string>, outDir: Path)
    ensures AdditionalHandbooks(disk, entries + [e], inputs, outDir)
         == HandbookStep(AdditionalHandbooks(disk, entries, inputs, outDir), e, inputs, outDir)
  {
    assert (entries + [e])[..|entries|] == entries;
  }

  lemma {:induction false} EntriesPrefix(names: seq<string>, derive: string -> HandbookEntry, k: nat)
    requires k <= |names|
    ensures Entries(names, derive)[..k] == Entries(names[..k], derive)
    decreases |names|
  {
    if k < |names| {
      EntriesPrefix(names[..|names| - 1], derive, k);
      assert names[..|names| - 1][..k] == names[..k];
    } else {
      assert names[..k] == names;
    }
  }

  /** Once an exception has escaped, later entries change nothing. */
  lemma {:induction false} EscapeEndsRun(disk: Disk, entries: seq<HandbookEntry>, inputs: map<string, string>,
                                         outDir: Path, k: nat)
    requires k <= |entries|
    requires AdditionalHandbooks(disk, entries[..k], inputs, outDir).escaped.Some?
    ensures AdditionalHandbooks(disk, entries, inputs, outDir) == AdditionalHandbooks(disk, entries[..k], inputs, outDir)
    decreases |entries| - k
  {
    if k < |entries| {
      assert entries[..k + 1][..k] == entries[..k];
      EscapeEndsRun(disk, entries, inputs, outDir, k + 1);
    } else {
      assert entries[..k] == entries;
    }
  }

  /** Without a language the header cannot be formatted: `format` raises
      KeyError('lang'). */
  lemma HeaderWithoutLang(docId: string, docClass: string, metadata: string, title: string)
    ensures Format(SecHbCorp, HeaderFields(docId, docClass, metadata, title, None)) == Raised(KeyError("lang"))
  {
    assert UsesField(SecHbCorp, "lang") by {
      assert SecHbCorp[7] == Field("lang");
    }
  }

  /** With a language every field of the template is supplied. */
  lemma HeaderWithLang(docId: string, docClass: string, metadata: string, title: string, lang: string)
    ensures Format(SecHbCorp, HeaderFields(docId, docClass, metadata, title, Some(lang))).Ok?
  {
  }

  /** The header of one name's entry: KeyError('lang') without a language,
      formatted with one. */
  lemma EntryHeader(fname: string, lang: Option<string>)
    ensures lang.None? ==> EntryOf(fname, lang).header == Raised(KeyError("lang"))
    ensures lang.Some? ==> EntryOf(fname, lang).header.Ok?
  {
    var metadata := ReplaceAll(Normalize(ReplaceAll(fname, ".md", "")), "-", " ");
    match lang {
      case None => HeaderWithoutLang(GenerateDocId(fname), ClassifyDoc(fname), metadata, ReplaceAll(fname, ".md", ""));
      case Some(l) => HeaderWithLang(GenerateDocId(fname), ClassifyDoc(fname), metadata, ReplaceAll(fname, ".md", ""), l);
    }
  }

  /** Entry `i` is derived from name `i`. */
  lemma {:induction false} EntriesAt(names: seq<string>, derive: string -> HandbookEntry)
    ensures forall i :: 0 <= i < |names| ==> Entries(names, derive)[i] == derive(names[i])
    decreases |names|
  {
    if names != [] {
      EntriesAt(names[..|names| - 1], derive);
    }
  }

  /** The entries of the listed names: one per name, in order, each with
      the output name `generate_doc_id` gives; without a language every
      header is KeyError('lang'), with one every header is formatted. */
  lemma EntriesOfNames(names: seq<string>, lang: Option<string>)
    ensures var entries := Entries(names, EntryFor(lang));
            forall i :: 0 <= i < |names| ==>
              && entries[i].fname == names[i]
              && entries[i].outName == GenerateDocId(names[i]) + ".md"
              && (lang.None? ==> entries[i].header == Raised(KeyError("lang")))
              && (lang.Some? ==> entries[i].header.Ok?)
  {
    var entries := Entries(names, EntryFor(lang));
    EntriesAt(names, EntryFor(lang));
    forall i | 0 <= i < |names|
      ensures entries[i].fname == names[i]
      ensures entries[i].outName == GenerateDocId(names[i]) + ".md"
      ensures lang.None? ==> entries[i].header == Raised(KeyError("lang"))
      ensures lang.Some? ==> entries[i].header.Ok?
    {
      assert entries[i] == EntryOf(names[i], lang);
      EntryHeader(names[i], lang);
    }
  }

  /** An entry gets a file written: its output is absent and its input is
      present. */
  predicate Eligible(disk: Disk, e: HandbookEntry, inputs: map<string, string>, outDir: Path) {
    !disk.Exists(HandbookOutput(outDir, e)) && e.fname in inputs
  }

  /** As written (every header KeyError('lang')): the call creates the output
      directory and writes no file; it raises KeyError('lang') exactly when
      some entry has no output yet and has an input. */
  lemma {:induction false} AdditionalHandbooksAsWritten(disk: Disk, entries: seq<HandbookEntry>,
                                                        inputs: map<string, string>, outDir: Path)
    requires forall i :: 0 <= i < |entries| ==> entries[i].header == Raised(KeyError("lang"))
    ensures var run := AdditionalHandbooks(disk, entries, inputs, outDir);
            && run.disk == disk.MakeDirs(outDir)
            && (run.escaped.Some? ==> run.escaped == Some(KeyError("lang")))
            && (run.escaped.Some? <==> exists i :: 0 <= i < |entries| && Eligible(disk, entries[i], inputs, outDir))
    decreases |entries|
  {
    if entries != [] {
      var init := entries[..|entries| - 1];
      var e := entries[|entries| - 1];
      assert forall i :: 0 <= i < |init| ==> init[i] == entries[i];
      AdditionalHandbooksAsWritten(disk, init, inputs, outDir);
      var prev := AdditionalHandbooks(disk, init, inputs, outDir);
      var run := AdditionalHandbooks(disk, entries, inputs, outDir);
      assert run == HandbookStep(prev, e, inputs, outDir);
      var out := HandbookOutput(outDir, e);
      assert prev.disk.Exists(out) <==> disk.Exists(out) by {
        assert |out| > |outDir|;
      }
      if prev.escaped.Some? {
        var i :| 0 <= i < |init| && Eligible(disk, init[i], inputs, outDir);
        assert Eligible(disk, entries[i], inputs, outDir);
      } else if !Eligible(disk, e, inputs, outDir) {
        assert run == prev;
      } else {
        assert run == HandbookRun(Some(KeyError("lang")), prev.disk);
        assert Eligible(disk, entries[|entries| - 1], inputs, outDir);
      }
    }
  }

  /** With every header formatted: nothing escapes, every entry whose input
      exists has its output afterwards, and no file that existed before is
      changed. */
  lemma {:induction false} AdditionalHandbooksWithLang(disk: Disk, entries: seq<HandbookEntry>,
                                                       inputs: map<string, string>, outDir: Path)
    requires forall i :: 0 <= i < |entries| ==> entries[i].header.Ok?
    ensures var run := AdditionalHandbooks(disk, entries, inputs, outDir);
            && run.escaped.None?
            && Grows(disk, run.disk)
            && (forall p :: p in disk.files ==> run.disk.files[p] == disk.files[p])
            && (forall i :: 0 <= i < |entries| && entries[i].fname in inputs ==>
                  run.disk.Exists(HandbookOutput(outDir, entries[i])))
    decreases |entries|
  {
    if entries != [] {
      var init := entries[..|entries| - 1];
      var e := entries[|entries| - 1];
      assert forall i :: 0 <= i < |init| ==> init[i] == entries[i];
      AdditionalHandbooksWithLang(disk, init, inputs, outDir);
      var prev := AdditionalHandbooks(disk, init, inputs, outDir);
      var out := HandbookOutput(outDir, e);
      if !prev.disk.Exists(out) && e.fname in inputs {
        assert out !in disk.files;
      }
    } else {
      assert disk.MakeDirs(outDir).files == disk.files;
    }
  }

  /** The call as written, over the listed names: it creates the output
      directory, writes nothing, and raises KeyError('lang') exactly when
      some listed name has an input and no output yet. */
  lemma NamesAsWritten(disk: Disk, names: seq<string>, inputs: map<string, string>, outDir: Path)
    ensures var run := AdditionalHandbooks(disk, Entries(names, EntryFor(None)), inputs, outDir);
            && run.disk == disk.MakeDirs(outDir)
            && (run.escaped.Some? ==> run.escaped == Some(KeyError("lang")))
            && (run.escaped.Some? <==>
                  exists i :: 0 <= i < |names| && names[i] in inputs && !disk.Exists(outDir + [GenerateDocId(names[i]) + ".md"]))
  {
    var entries := Entries(names, EntryFor(None));
    EntriesOfNames(names, None);
    AdditionalHandbooksAsWritten(disk, entries, inputs, outDir);
    forall i | 0 <= i < |names|
      ensures Eligible(disk, entries[i], inputs, outDir)
          <==> names[i] in inputs && !disk.Exists(outDir + [GenerateDocId(names[i]) + ".md"])
    {
      assert HandbookOutput(outDir, entries[i]) == outDir + [GenerateDocId(names[i]) + ".md"];
    }
  }

  /** With a language, over the listed names: nothing escapes, no existing
      file changes, and every listed name with an input has its output. */
  lemma NamesWithLang(disk: Disk, names: seq<string>, inputs: map<string, string>, outDir: Path, lang: string)
    ensures var run := AdditionalHandbooks(disk, Entries(names, EntryFor(Some(lang))), inputs, outDir);
            && run.escaped.None?
            && Grows(disk, run.disk)
            && (forall p :: p in disk.files ==> run.disk.files[p] == disk.files[p])
            && (forall i :: 0 <= i < |names| && names[i] in inputs ==>
                  run.disk.Exists(outDir + [GenerateDocId(names[i]) + ".md"]))
  {
    var entries := Entries(names, EntryFor(Some(lang)));
    EntriesOfNames(names, Some(lang));
    AdditionalHandbooksWithLang(disk, entries, inputs, outDir);
  }
}
