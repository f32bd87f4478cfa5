/** The scan orchestrator of `run_janitor`: for every watched folder that is a
    directory, for every regular file in it, run the rules and collect the
    action records; outside a dry run also perform the moves and deletions,
    which the model records as a log of filesystem effects. */
module Janitor {
  import opened Text
  import opened Rules

  /** A watched folder as found on disk: its path as configured, whether it is
      a directory, and its listing in `os.listdir` order. */
  datatype Folder = Folder(path: string, isDir: bool, entries: seq<FileEntry>)

  /** The filesystem calls a real run makes: `os.makedirs(dir, exist_ok=True)`,
      `shutil.move(src, dst)` and `os.remove(path)`. */
  datatype Effect = MakeDirs(dir: string) | MoveFile(src: string, dst: string) | Remove(path: string)

  /** The regular files of a listing, in listing order. */
  function RegularFiles(entries: seq<FileEntry>): (files: seq<FileEntry>)
    ensures |files| <= |entries|
    ensures forall f | f in files :: f in entries && f.isFile
    ensures forall e | e in entries && e.isFile :: e in files
  {
    if entries == [] then []
    else
      var last := entries[|entries| - 1];
      RegularFiles(entries[..|entries| - 1]) + (if last.isFile then [last] else [])
  }

  /** The filter keeps listing order: the regular files of two listings one
      after the other are those of the first, then those of the second. */
  lemma {:induction false} RegularFilesAppend(a: seq<FileEntry>, b: seq<FileEntry>)
    ensures RegularFiles(a + b) == RegularFiles(a) + RegularFiles(b)
  {
    if b == [] {
      assert a + b == a;
    } else {
      var init, last := b[..|b| - 1], b[|b| - 1];
      var keep := if last.isFile then [last] else [];
      assert (a + b)[..|a + b| - 1] == a + init;
      assert (a + b)[|a + b| - 1] == last;
      assert RegularFiles(a + b) == RegularFiles(a + init) + keep;
      assert RegularFiles(b) == RegularFiles(init) + keep;
      RegularFilesAppend(a, init);
    }
  }

  /** A single entry is kept exactly when it is a regular file. */
  lemma {:induction false} RegularFilesSingle(e: FileEntry)
    ensures RegularFiles([e]) == if e.isFile then [e] else []
  {
    assert [e][..0] == [];
  }

  function AsSeq(r: Option<Record>): seq<Record> {
    if r.Some? then [r.value] else []
  }

  /** The filesystem effects behind one record for a file found in `folder`. */
  function RecordEffects(folder: string, r: Option<Record>): seq<Effect> {
    if r.None? then []
    else
      var rec := r.value;
      match rec.verb
      case Moved => [MakeDirs(rec.destination), MoveFile(JoinPath(folder, rec.filename), JoinPath(rec.destination, rec.filename))]
      case Deleted => [Remove(JoinPath(folder, rec.filename))]
  }

  // ---------------------------------------------------------------------------
  // What a scan produces, stated over the inputs

  /** The records for the files of one folder, in file order; at most one per file. */
  function FileRecords(folder: string, files: seq<FileEntry>, rules: seq<Rule>): (r: seq<Record>)
    ensures |r| <= |files|
    ensures rules == [] ==> r == []
  {
    if files == [] then []
    else FileRecords(folder, files[..|files| - 1], rules) + AsSeq(Resolve(rules, files[|files| - 1], folder))
  }

  function FileEffects(folder: string, files: seq<FileEntry>, rules: seq<Rule>): seq<Effect> {
    if files == [] then []
    else
      FileEffects(folder, files[..|files| - 1], rules)
      + RecordEffects(folder, Resolve(rules, files[|files| - 1], folder))
  }

  /** A folder that is not a directory contributes nothing. */
  function FolderRecords(folder: Folder, rules: seq<Rule>): seq<Record> {
    if folder.isDir then FileRecords(folder.path, RegularFiles(folder.entries), rules) else []
  }

  function FolderEffects(folder: Folder, rules: seq<Rule>): seq<Effect> {
    if folder.isDir then FileEffects(folder.path, RegularFiles(folder.entries), rules) else []
  }

  /** The action records of a whole scan, folder by folder; without rules
      there are none. */
  function ScanRecords(folders: seq<Folder>, rules: seq<Rule>): (r: seq<Record>)
    ensures rules == [] ==> r == []
  {
    if folders == [] then []
    else ScanRecords(folders[..|folders| - 1], rules) + FolderRecords(folders[|folders| - 1], rules)
  }

  function ScanEffects(folders: seq<Folder>, rules: seq<Rule>): seq<Effect> {
    if folders == [] then []
    else ScanEffects(folders[..|folders| - 1], rules) + FolderEffects(folders[|folders| - 1], rules)
  }

  // ---------------------------------------------------------------------------
  // The scan loop

  /** The condition checks of one rule, clearing the `matches` flag for each
      stated condition that fails. */
  method CheckConditions(conditions: Conditions, filename: string, age: real, folder: string) returns (matches: bool)
    ensures matches == Evaluate(conditions, filename, age, folder)
  {
    matches := true;
    if conditions.sourceFolder.Some? && folder != conditions.sourceFolder.value {
      matches := false;
    }
    if conditions.extensions.Some? {
      if !ExtensionMatches(filename, conditions.extensions.value) {
        matches := false;
      }
    }
    if conditions.filenameContains.Some? {
      if !KeywordMatches(filename, conditions.filenameContains.value) {
        matches := false;
      }
    }
    if conditions.ageDays.Some? {
      if age < conditions.ageDays.value {
        matches := false;
      }
    }
    EvaluateByField(conditions, filename, age, folder);
  }

  /** What the loop does with a rule that matched: read its action (default
      "move") and destination, perform the move or deletion unless this is a
      dry run, and report whether to append a record, try the next rule, or stop. */
  method Apply(folder: string, filename: string, rule: Rule, dryRun: bool)
    returns (outcome: Outcome, performed: seq<Effect>)
    ensures outcome == Plan(rule, filename)
    ensures performed == if dryRun || !outcome.Emit? then [] else RecordEffects(folder, Some(outcome.record))
  {
    performed := [];
    var filePath := JoinPath(folder, filename);
    var action := if rule.action.Some? then rule.action.value else "move";
    var destination := rule.destination;
    if action == "move" {
      if destination.None? || destination.value == "" {
        return NextRule, performed;
      }
      if !dryRun {
        performed := performed + [MakeDirs(destination.value), MoveFile(filePath, JoinPath(destination.value, filename))];
      }
      outcome := Emit(Record(Moved, filename, destination.value));
    } else if action == "delete" {
      if !dryRun {
        performed := performed + [Remove(filePath)];
      }
      outcome := Emit(Record(Deleted, filename, "N/A"));
    } else {
      outcome := Stop;
    }
  }

  /** The rule loop for one file: the record it appends and, outside a dry
      run, the filesystem effects it performs. */
  method ProcessFile(folder: string, file: FileEntry, rules: seq<Rule>, dryRun: bool)
    returns (added: seq<Record>, performed: seq<Effect>)
    ensures added == AsSeq(Resolve(rules, file, folder))
    ensures performed == if dryRun then [] else RecordEffects(folder, Resolve(rules, file, folder))
  {
    added, performed := [], [];
    var ri := 0;
    while ri < |rules|
      invariant 0 <= ri <= |rules|
      invariant Resolve(rules[ri..], file, folder) == Resolve(rules, file, folder)
      invariant added == [] && performed == []
    {
      var rule := rules[ri];
      var matches := CheckConditions(rule.conditions, file.name, FileAgeDays(file), folder);
      ResolveAt(rules, ri, file, folder);
      if matches {
        var outcome, effects := Apply(folder, file.name, rule, dryRun);
        if outcome.NextRule? {
          ri := ri + 1;
          continue;
        }
        if outcome.Emit? {
          added := added + [outcome.record];
          performed := performed + effects;
        }
        break;
      }
      ri := ri + 1;
    }
  }

  /** The file loop for one watched directory: the rule loop for each regular
      file, in listing order. */
  method ScanFolder(folder: Folder, rules: seq<Rule>, dryRun: bool)
    returns (added: seq<Record>, performed: seq<Effect>)
    requires folder.isDir
    ensures added == FolderRecords(folder, rules)
    ensures performed == if dryRun then [] else FolderEffects(folder, rules)
  {
    added, performed := [], [];
    var files := RegularFiles(folder.entries);
    for k := 0 to |files|
      invariant added == FileRecords(folder.path, files[..k], rules)
      invariant performed == if dryRun then [] else FileEffects(folder.path, files[..k], rules)
    {
      var fileRecords, fileEffects := ProcessFile(folder.path, files[k], rules, dryRun);
      added := added + fileRecords;
      performed := performed + fileEffects;
      FileStep(folder.path, files, k, rules);
    }
    assert files[..|files|] == files;
  }

  /** The file loop's step: going from the first `k` files to the first `k + 1`
      appends what file `k` contributes. */
  lemma {:induction false} FileStep(folder: string, files: seq<FileEntry>, k: nat, rules: seq<Rule>)
    requires k < |files|
    ensures FileRecords(folder, files[..k + 1], rules) == FileRecords(folder, files[..k], rules) + AsSeq(Resolve(rules, files[k], folder))
    ensures FileEffects(folder, files[..k + 1], rules) == FileEffects(folder, files[..k], rules) + RecordEffects(folder, Resolve(rules, files[k], folder))
  {
    assert files[..k + 1][..k] == files[..k];
  }

  /** The folder loop of `run_janitor` (the progress bar, the sleep and the
      summary table are left out). The records do not depend on `dryRun`; a
      dry run performs no filesystem effect at all. */
  method Scan(folders: seq<Folder>, rules: seq<Rule>, dryRun: bool) returns (actions: seq<Record>, effects: seq<Effect>)
    ensures actions == ScanRecords(folders, rules)
    ensures effects == if dryRun then [] else ScanEffects(folders, rules)
  {
    actions, effects := [], [];
    for fi := 0 to |folders|
      invariant actions == ScanRecords(folders[..fi], rules)
      invariant effects == if dryRun then [] else ScanEffects(folders[..fi], rules)
    {
      var folder := folders[fi];
      assert folders[..fi + 1][..fi] == folders[..fi];
      if !folder.isDir {
        continue;
      }
      var added, performed := ScanFolder(folder, rules, dryRun);
      actions := actions + added;
      effects := effects + performed;
    }
    assert folders[..|folders|] == folders;
  }

  // ---------------------------------------------------------------------------
  // Properties of a scan

  /** Records appear folder by folder: scanning two lists of folders one after
      the other gives the records of the first, then those of the second. */
  lemma {:induction false} ScanRecordsAppend(a: seq<Folder>, b: seq<Folder>, rules: seq<Rule>)
    ensures ScanRecords(a + b, rules) == ScanRecords(a, rules) + ScanRecords(b, rules)
  {
    if b == [] {
      assert a + b == a;
    } else {
      var init, last := b[..|b| - 1], b[|b| - 1];
      assert (a + b)[..|a + b| - 1] == a + init;
      assert (a + b)[|a + b| - 1] == last;
      assert ScanRecords(a + b, rules) == ScanRecords(a + init, rules) + FolderRecords(last, rules);
      assert ScanRecords(b, rules) == ScanRecords(init, rules) + FolderRecords(last, rules);
      ScanRecordsAppend(a, init, rules);
    }
  }

  /** A watched folder that is not a directory is skipped: it contributes no
      record and the folders after it are still scanned. */
  lemma {:induction false} NonDirectoryContributesNothing(a: seq<Folder>, folder: Folder, b: seq<Folder>, rules: seq<Rule>)
    requires !folder.isDir
    ensures ScanRecords(a + [folder] + b, rules) == ScanRecords(a, rules) + ScanRecords(b, rules)
  {
    ScanRecordsAppend(a + [folder], b, rules);
    ScanRecordsAppend(a, [folder], rules);
    ScanOneFolder(folder, rules);
  }

  /** When no watched path is a directory, a scan yields no record. */
  lemma {:induction false} NoDirectoryNoRecords(folders: seq<Folder>, rules: seq<Rule>)
    requires forall i | 0 <= i < |folders| :: !folders[i].isDir
    ensures ScanRecords(folders, rules) == []
  {
    if folders != [] {
      var init := folders[..|folders| - 1];
      forall i | 0 <= i < |init|
        ensures !init[i].isDir
      {
        assert init[i] == folders[i];
      }
      NoDirectoryNoRecords(init, rules);
    }
  }

  /** Scanning a single folder yields that folder's records. */
  lemma {:induction false} ScanOneFolder(folder: Folder, rules: seq<Rule>)
    ensures ScanRecords([folder], rules) == FolderRecords(folder, rules)
    ensures ScanEffects([folder], rules) == FolderEffects(folder, rules)
  {
    assert [folder][..0] == [];
  }

  /** Every record of a file loop names one of the files it went through. */
  lemma {:induction false} FileRecordsNameFiles(folder: string, files: seq<FileEntry>, rules: seq<Rule>, rec: Record)
    requires rec in FileRecords(folder, files, rules)
    ensures exists f | f in files :: f.name == rec.filename
  {
    var init, last := files[..|files| - 1], files[|files| - 1];
    if rec in FileRecords(folder, init, rules) {
      FileRecordsNameFiles(folder, init, rules, rec);
      var f :| f in init && f.name == rec.filename;
      assert f in files;
    } else {
      assert rec == Resolve(rules, last, folder).value;
    }
  }

  /** Every record of a scan names a regular file listed in one of the watched
      folders that is a directory. */
  lemma {:induction false} RecordsNameWatchedFiles(folders: seq<Folder>, rules: seq<Rule>, rec: Record)
    requires rec in ScanRecords(folders, rules)
    ensures exists fo | fo in folders :: fo.isDir && exists f | f in fo.entries :: f.isFile && f.name == rec.filename
  {
    var init, last := folders[..|folders| - 1], folders[|folders| - 1];
    if rec in ScanRecords(init, rules) {
      RecordsNameWatchedFiles(init, rules, rec);
      var fo :| fo in init && fo.isDir && exists f | f in fo.entries :: f.isFile && f.name == rec.filename;
      assert fo in folders;
    } else {
      assert last.isDir;
      FileRecordsNameFiles(last.path, RegularFiles(last.entries), rules, rec);
      var f :| f in RegularFiles(last.entries) && f.name == rec.filename;
      assert f in last.entries && f.isFile;
    }
  }

  /** Within a folder, records appear in file listing order. */
  lemma {:induction false} FileRecordsAppend(folder: string, a: seq<FileEntry>, b: seq<FileEntry>, rules: seq<Rule>)
    ensures FileRecords(folder, a + b, rules) == FileRecords(folder, a, rules) + FileRecords(folder, b, rules)
  {
    if b == [] {
      assert a + b == a;
    } else {
      var init, last := b[..|b| - 1], b[|b| - 1];
      var one := AsSeq(Resolve(rules, last, folder));
      assert (a + b)[..|a + b| - 1] == a + init;
      assert (a + b)[|a + b| - 1] == last;
      assert FileRecords(folder, a + b, rules) == FileRecords(folder, a + init, rules) + one;
      assert FileRecords(folder, b, rules) == FileRecords(folder, init, rules) + one;
      FileRecordsAppend(folder, a, init, rules);
    }
  }

  /** Each file contributes exactly the record its rules resolve to, so at most one. */
  lemma {:induction false} FileRecordsSingle(folder: string, f: FileEntry, rules: seq<Rule>)
    ensures FileRecords(folder, [f], rules) == AsSeq(Resolve(rules, f, folder))
    ensures FileEffects(folder, [f], rules) == RecordEffects(folder, Resolve(rules, f, folder))
  {
    assert [f][..0] == [];
  }

  /** A scan of one directory holding one regular file yields exactly the
      record the rules resolve that file to. */
  lemma {:induction false} OneFileScan(folder: Folder, f: FileEntry, rules: seq<Rule>)
    requires folder.isDir && folder.entries == [f] && f.isFile
    ensures ScanRecords([folder], rules) == AsSeq(Resolve(rules, f, folder.path))
    ensures ScanEffects([folder], rules) == RecordEffects(folder.path, Resolve(rules, f, folder.path))
  {
    RegularFilesSingle(f);
    FileRecordsSingle(folder.path, f, rules);
    ScanOneFolder(folder, rules);
  }

  /** An archiving rule: a file in a watched directory whose lower-cased name
      ends with the rule's extension and whose age reaches the threshold (for
      instance "report.pdf", 10 days old, under ".pdf" and 7 days) yields one
      "Moved" record to the rule's destination; a real run creates the
      destination and moves the file there. */
  lemma {:induction false} ArchiveRuleMovesMatchingFile(dir: string, f: FileEntry, ext: string, threshold: real, dest: string)
    requires f.isFile && EndsWith(Lower(f.name), ext) && FileAgeDays(f) >= threshold && dest != ""
    ensures ScanRecords(
      [Folder(dir, true, [f])],
      [Rule(Conditions(None, Some([ext]), None, Some(threshold)), Some("move"), Some(dest))])
      == [Record(Moved, f.name, dest)]
    ensures ScanEffects(
      [Folder(dir, true, [f])],
      [Rule(Conditions(None, Some([ext]), None, Some(threshold)), Some("move"), Some(dest))])
      == [MakeDirs(dest), MoveFile(JoinPath(dir, f.name), JoinPath(dest, f.name))]
  {
    var rule := Rule(Conditions(None, Some([ext]), None, Some(threshold)), Some("move"), Some(dest));
    EvaluateByField(rule.conditions, f.name, FileAgeDays(f), dir);
    ResolveFirstDecisive([rule], f, dir, 0);
    OneFileScan(Folder(dir, true, [f]), f, [rule]);
  }

  /** A deleting rule: a file in a watched directory whose name contains the
      keyword in any case yields one "Deleted" record with "N/A" as destination,
      and a real run removes that file from the directory. */
  lemma {:induction false} DeleteRuleRemovesMatchingFile(dir: string, f: FileEntry, keyword: string)
    requires f.isFile && Contains(Lower(f.name), Lower(keyword))
    ensures ScanRecords(
      [Folder(dir, true, [f])],
      [Rule(Conditions(None, None, Some([keyword]), None), Some("delete"), None)])
      == [Record(Deleted, f.name, "N/A")]
    ensures ScanEffects(
      [Folder(dir, true, [f])],
      [Rule(Conditions(None, None, Some([keyword]), None), Some("delete"), None)])
      == [Remove(JoinPath(dir, f.name))]
  {
    var rule := Rule(Conditions(None, None, Some([keyword]), None), Some("delete"), None);
    EvaluateByField(rule.conditions, f.name, FileAgeDays(f), dir);
    ResolveFirstDecisive([rule], f, dir, 0);
    OneFileScan(Folder(dir, true, [f]), f, [rule]);
  }
}
