/** The janitor's rules: the condition evaluator, the action planner for a
    rule that matched, and the first-match-wins resolution over the ordered
    rule list that `run_janitor` performs for every file it scans. */
module Rules {
  import opened Text

  datatype Option<T> = None | Some(value: T)

  /** The parsed `conditions` object of one rule. A key absent from the JSON
      object is `None`; a rule without a `conditions` object has `NoConditions`. */
  datatype Conditions = Conditions(
    sourceFolder: Option<string>,
    extensions: Option<seq<string>>,
    filenameContains: Option<seq<string>>,
    ageDays: Option<real>)

  const NoConditions := Conditions(None, None, None, None)

  /** One entry of the `rules` list; `action` and `destination` are `None`
      when the key is absent. */
  datatype Rule = Rule(conditions: Conditions, action: Option<string>, destination: Option<string>)

  /** A directory entry as the scan sees it: its name, whether it is a regular
      file, and its age in days (`None` when its modification time cannot be read). */
  datatype FileEntry = FileEntry(name: string, isFile: bool, age: Option<real>)

  /** The age `get_file_age_days` reports: an unreadable modification time counts as 0. */
  function FileAgeDays(f: FileEntry): real {
    if f.age.Some? then f.age.value else 0.0
  }

  // ---------------------------------------------------------------------------
  // Condition evaluator

  datatype Kind = SourceFolder | Extensions | FilenameContains | AgeDays

  /** The condition kinds a rule actually states. */
  function Present(c: Conditions): set<Kind> {
    (if c.sourceFolder.Some? then {SourceFolder} else {}) +
    (if c.extensions.Some? then {Extensions} else {}) +
    (if c.filenameContains.Some? then {FilenameContains} else {}) +
    (if c.ageDays.Some? then {AgeDays} else {})
  }

  /** `any(filename.lower().endswith(ext) for ext in exts)`: only the file
      name is lower-cased, each extension is compared as written. */
  predicate ExtensionMatches(name: string, exts: seq<string>) {
    exists ext | ext in exts :: EndsWith(Lower(name), ext)
  }

  /** `any(keyword.lower() in filename.lower() for keyword in keywords)`. */
  predicate KeywordMatches(name: string, keywords: seq<string>) {
    exists keyword | keyword in keywords :: Contains(Lower(name), Lower(keyword))
  }

  /** Whether one stated condition holds of a file named `name`, of age `age`,
      found in the watched folder `folder`. */
  predicate Holds(k: Kind, c: Conditions, name: string, age: real, folder: string)
    requires k in Present(c)
  {
    match k
    case SourceFolder => folder == c.sourceFolder.value
    case Extensions => ExtensionMatches(name, c.extensions.value)
    case FilenameContains => KeywordMatches(name, c.filenameContains.value)
    case AgeDays => !(age < c.ageDays.value)
  }

  /** A rule's conditions match when every condition kind it states holds. */
  predicate Evaluate(c: Conditions, name: string, age: real, folder: string) {
    forall k | k in Present(c) :: Holds(k, c, name, age, folder)
  }

  /** Evaluation field by field, as the scan loop performs it: an absent key
      places no constraint, a present one must hold. */
  lemma {:induction false} EvaluateByField(c: Conditions, name: string, age: real, folder: string)
    ensures Evaluate(c, name, age, folder) <==>
      (c.sourceFolder.None? || folder == c.sourceFolder.value) &&
      (c.extensions.None? || ExtensionMatches(name, c.extensions.value)) &&
      (c.filenameContains.None? || KeywordMatches(name, c.filenameContains.value)) &&
      (c.ageDays.None? || age >= c.ageDays.value)
  {
    if c.sourceFolder.Some? { assert SourceFolder in Present(c); }
    if c.extensions.Some? { assert Extensions in Present(c); }
    if c.filenameContains.Some? { assert FilenameContains in Present(c); }
    if c.ageDays.Some? { assert AgeDays in Present(c); }
  }

  /** A rule with no conditions matches every file in every folder. */
  lemma {:induction false} EmptyConditionsMatchEverything(name: string, age: real, folder: string)
    ensures Evaluate(NoConditions, name, age, folder)
  {
    assert Present(NoConditions) == {};
  }

  /** An empty extension list never matches. */
  lemma {:induction false} EmptyExtensionListNeverMatches(name: string)
    ensures !ExtensionMatches(name, [])
  {
  }

  /** A match means some listed extension, exactly as written, ends the
      lower-cased name. */
  lemma {:induction false} ExtensionMatchSplit(name: string, exts: seq<string>) returns (ext: string, p: string)
    requires ExtensionMatches(name, exts)
    ensures ext in exts && Lower(name) == p + ext
  {
    ext :| ext in exts && EndsWith(Lower(name), ext);
    p := Lower(name)[..|name| - |ext|];
  }

  /** Conversely, a listed extension that ends the lower-cased name matches. */
  lemma {:induction false} ExtensionConcatMatches(name: string, exts: seq<string>, ext: string, p: string)
    requires ext in exts && Lower(name) == p + ext
    ensures ExtensionMatches(name, exts)
  {
    EndsWithConcat(p, ext);
  }

  /** A name made of any stem and a lower-case extension matches that
      extension: "report" + ".pdf" matches [".pdf"], and so does "REPORT" + ".PDF". */
  lemma {:induction false} ExtensionMatchesStem(stem: string, ext: string)
    ensures ExtensionMatches(stem + ext, [Lower(ext)])
  {
    EndsWithConcat(stem, ext);
    LowerCaseExtensionMatchesAnyCase(stem + ext, ext);
  }

  /** Extensions that each hold an upper-case letter (".PDF") can never match,
      because only the file name is lower-cased. */
  lemma {:induction false} UpperCaseExtensionNeverMatches(name: string, exts: seq<string>)
    requires forall e | e in exts :: exists i | 0 <= i < |e| :: IsUpper(e[i])
    ensures !ExtensionMatches(name, exts)
  {
    var l := Lower(name);
    forall ext | ext in exts
      ensures !EndsWith(l, ext)
    {
      var i :| 0 <= i < |ext| && IsUpper(ext[i]);
      if |ext| <= |l| {
        assert l[|l| - |ext|..][i] == l[|l| - |ext| + i];
      }
    }
  }

  /** A lower-case extension catches a file whatever the case of its name:
      if the name ends with `ext` in any case, it matches `Lower(ext)`. */
  lemma {:induction false} LowerCaseExtensionMatchesAnyCase(name: string, ext: string)
    requires EndsWith(name, ext)
    ensures ExtensionMatches(name, [Lower(ext)])
  {
    var k := |name| - |ext|;
    LowerSlice(name, k, |name|);
    assert name[k..|name|] == ext;
    assert Lower(name)[k..] == Lower(name)[k..|name|];
    assert EndsWith(Lower(name), Lower(ext));
  }

  /** The empty extension "" matches every name (`str.endswith("")` is true). */
  lemma {:induction false} EmptyExtensionMatchesEverything(name: string)
    ensures ExtensionMatches(name, [""])
  {
    assert EndsWith(Lower(name), "");
  }

  /** An empty keyword list never matches. */
  lemma {:induction false} EmptyKeywordListNeverMatches(name: string)
    ensures !KeywordMatches(name, [])
  {
  }

  /** Keyword matching ignores case on both sides: names equal up to case and
      keyword lists equal up to case, keyword by keyword, give the same answer. */
  lemma {:induction false} KeywordMatchIgnoresCase(name1: string, name2: string, ks1: seq<string>, ks2: seq<string>)
    requires Lower(name1) == Lower(name2)
    requires |ks1| == |ks2| && forall i | 0 <= i < |ks1| :: Lower(ks1[i]) == Lower(ks2[i])
    ensures KeywordMatches(name1, ks1) <==> KeywordMatches(name2, ks2)
  {
    if KeywordMatches(name1, ks1) {
      var kw :| kw in ks1 && Contains(Lower(name1), Lower(kw));
      var i :| 0 <= i < |ks1| && ks1[i] == kw;
      assert ks2[i] in ks2;
    }
    if KeywordMatches(name2, ks2) {
      var kw :| kw in ks2 && Contains(Lower(name2), Lower(kw));
      var i :| 0 <= i < |ks2| && ks2[i] == kw;
      assert ks1[i] in ks1;
    }
  }

  /** A match means some listed keyword, lower-cased, occurs in the
      lower-cased name. */
  lemma {:induction false} KeywordMatchSplit(name: string, keywords: seq<string>) returns (kw: string, p: string, q: string)
    requires KeywordMatches(name, keywords)
    ensures kw in keywords && Lower(name) == p + Lower(kw) + q
  {
    kw :| kw in keywords && Contains(Lower(name), Lower(kw));
    p, q := ContainsSplit(Lower(name), Lower(kw));
  }

  /** Conversely, a listed keyword whose lower-cased form occurs in the
      lower-cased name matches. */
  lemma {:induction false} KeywordConcatMatches(name: string, keywords: seq<string>, kw: string, p: string, q: string)
    requires kw in keywords && Lower(name) == p + Lower(kw) + q
    ensures KeywordMatches(name, keywords)
  {
    ContainsConcat(p, Lower(kw), q);
  }

  /** A keyword that occurs in the name as written always matches. */
  lemma {:induction false} OccurringKeywordMatches(name: string, kw: string, i: nat)
    requires i + |kw| <= |name| && OccursAt(name, kw, i)
    ensures KeywordMatches(name, [kw])
  {
    LowerSlice(name, i, i + |kw|);
    assert OccursAt(Lower(name), Lower(kw), i);
  }

  /** The empty keyword "" matches every name (`"" in s` is true). */
  lemma {:induction false} EmptyKeywordMatchesEverything(name: string)
    ensures KeywordMatches(name, [""])
  {
    assert OccursAt(Lower(name), Lower(""), 0);
  }

  /** The age test is inclusive: a file exactly as old as the threshold matches. */
  lemma {:induction false} AgeThresholdInclusive(name: string, age: real, threshold: real, folder: string)
    ensures Evaluate(Conditions(None, None, None, Some(threshold)), name, age, folder)
      <==> age >= threshold
  {
    EvaluateByField(Conditions(None, None, None, Some(threshold)), name, age, folder);
  }

  /** A file whose modification time cannot be read is treated as 0 days old. */
  lemma {:induction false} UnreadableAgeCountsAsZero(f: FileEntry, threshold: real, folder: string)
    requires f.age.None?
    ensures Evaluate(Conditions(None, None, None, Some(threshold)), f.name, FileAgeDays(f), folder)
      <==> threshold <= 0.0
  {
    AgeThresholdInclusive(f.name, FileAgeDays(f), threshold, folder);
  }

  // ---------------------------------------------------------------------------
  // Action planner

  datatype Verb = Moved | Deleted

  /** One line of the actions summary: `("Moved", filename, destination)` or
      `("Deleted", filename, "N/A")`. */
  datatype Record = Record(verb: Verb, filename: string, destination: string)

  /** What the rule loop does with a rule that matched: go on to the next rule
      (`continue`), append a record and stop, or stop without a record (`break`). */
  datatype Outcome = NextRule | Emit(record: Record) | Stop

  /** The action a rule names; a missing action means "move". */
  function ActionOf(rule: Rule): string {
    if rule.action.Some? then rule.action.value else "move"
  }

  /** A destination that is missing or the empty string counts as absent. */
  predicate HasDestination(rule: Rule) {
    rule.destination.Some? && rule.destination.value != ""
  }

  function Plan(rule: Rule, name: string): (o: Outcome)
    ensures o.Emit? ==> o.record.filename == name
    ensures o.NextRule? <==> ActionOf(rule) == "move" && !HasDestination(rule)
    ensures o.Stop? <==> ActionOf(rule) != "move" && ActionOf(rule) != "delete"
    ensures o.Emit? && o.record.verb == Moved ==> HasDestination(rule) && o.record.destination == rule.destination.value
    ensures o.Emit? && o.record.verb == Deleted ==> ActionOf(rule) == "delete" && o.record.destination == "N/A"
    ensures o.Emit? && o.record.verb == Moved ==> ActionOf(rule) == "move"
    ensures ActionOf(rule) == "delete" ==> o == Emit(Record(Deleted, name, "N/A"))
    ensures ActionOf(rule) == "move" && HasDestination(rule) ==> o == Emit(Record(Moved, name, rule.destination.value))
  {
    var action := ActionOf(rule);
    if action == "move" then
      if !HasDestination(rule) then NextRule
      else Emit(Record(Moved, name, rule.destination.value))
    else if action == "delete" then Emit(Record(Deleted, name, "N/A"))
    else Stop
  }

  /** A missing action behaves exactly like "move". */
  lemma {:induction false} MissingActionMeansMove(rule: Rule, name: string)
    requires rule.action.None?
    ensures Plan(rule, name) == Plan(rule.(action := Some("move")), name)
  {
  }

  // ---------------------------------------------------------------------------
  // Rule resolver

  predicate Matches(rule: Rule, f: FileEntry, folder: string) {
    Evaluate(rule.conditions, f.name, FileAgeDays(f), folder)
  }

  /** A rule decides a file when it matches and does not fall through to the
      next rule: it either produces a record or stops rule processing. */
  predicate Decides(rule: Rule, f: FileEntry, folder: string) {
    Matches(rule, f, folder) && !Plan(rule, f.name).NextRule?
  }

  function RecordOf(o: Outcome): Option<Record> {
    if o.Emit? then Some(o.record) else None
  }

  /** The record, if any, that the rule loop appends for file `f` in `folder`. */
  function Resolve(rules: seq<Rule>, f: FileEntry, folder: string): (r: Option<Record>)
    ensures r.Some? ==> r.value.filename == f.name
    ensures r.Some? && r.value.verb == Moved ==> r.value.destination != ""
    ensures r.Some? && r.value.verb == Deleted ==> r.value.destination == "N/A"
    ensures r.Some? ==> exists i | 0 <= i < |rules| :: Decides(rules[i], f, folder) && Plan(rules[i], f.name) == Emit(r.value)
  {
    if rules == [] then None
    else if !Matches(rules[0], f, folder) then
      var r := Resolve(rules[1..], f, folder);
      assert r.Some? ==> exists i | 0 <= i < |rules| :: Decides(rules[i], f, folder) && Plan(rules[i], f.name) == Emit(r.value) by {
        if r.Some? {
          var i :| 0 <= i < |rules[1..]| && Decides(rules[1..][i], f, folder) && Plan(rules[1..][i], f.name) == Emit(r.value);
          assert rules[i + 1] == rules[1..][i];
        }
      }
      r
    else match Plan(rules[0], f.name)
      case NextRule =>
        var r := Resolve(rules[1..], f, folder);
        assert r.Some? ==> exists i | 0 <= i < |rules| :: Decides(rules[i], f, folder) && Plan(rules[i], f.name) == Emit(r.value) by {
          if r.Some? {
            var i :| 0 <= i < |rules[1..]| && Decides(rules[1..][i], f, folder) && Plan(rules[1..][i], f.name) == Emit(r.value);
            assert rules[i + 1] == rules[1..][i];
          }
        }
        r
      case Emit(rec) => Some(rec)
      case Stop => None
  }

  /** One step of the rule loop at position `i`: a rule that does not decide
      the file hands over to the rules after it. */
  lemma {:induction false} ResolveAt(rules: seq<Rule>, i: nat, f: FileEntry, folder: string)
    requires i < |rules|
    ensures Resolve(rules[i..], f, folder) ==
      if Decides(rules[i], f, folder) then RecordOf(Plan(rules[i], f.name)) else Resolve(rules[i + 1..], f, folder)
  {
    assert rules[i..][0] == rules[i] && rules[i..][1..] == rules[i + 1..];
  }

  /** First match wins: when rule `i` is the first rule that decides the file,
      the result is what rule `i` plans, and no other rule is consulted. */
  lemma {:induction false} ResolveFirstDecisive(rules: seq<Rule>, f: FileEntry, folder: string, i: nat)
    requires i < |rules| && Decides(rules[i], f, folder)
    requires forall j | 0 <= j < i :: !Decides(rules[j], f, folder)
    ensures Resolve(rules, f, folder) == RecordOf(Plan(rules[i], f.name))
  {
    if i > 0 {
      assert !Decides(rules[0], f, folder);
      forall j | 0 <= j < i - 1
        ensures !Decides(rules[1..][j], f, folder)
      {
        assert rules[1..][j] == rules[j + 1];
      }
      ResolveFirstDecisive(rules[1..], f, folder, i - 1);
    }
  }

  /** When no rule decides the file, no record results; this follows from
      the contract of `Resolve`, which traces every record to a deciding rule. */
  lemma {:induction false} ResolveNoneDecides(rules: seq<Rule>, f: FileEntry, folder: string)
    requires forall j | 0 <= j < |rules| :: !Decides(rules[j], f, folder)
    ensures Resolve(rules, f, folder) == None
  {
  }

  /** Rules that do not decide the file are passed over: a prefix of them in
      front of `rest` leaves the result to `rest`. */
  lemma {:induction false} ResolveSkipsUndecisive(prefix: seq<Rule>, rest: seq<Rule>, f: FileEntry, folder: string)
    requires forall j | 0 <= j < |prefix| :: !Decides(prefix[j], f, folder)
    ensures Resolve(prefix + rest, f, folder) == Resolve(rest, f, folder)
  {
    if prefix != [] {
      assert !Decides(prefix[0], f, folder);
      assert (prefix + rest)[0] == prefix[0];
      assert (prefix + rest)[1..] == prefix[1..] + rest;
      forall j | 0 <= j < |prefix| - 1
        ensures !Decides(prefix[1..][j], f, folder)
      {
        assert prefix[1..][j] == prefix[j + 1];
      }
      ResolveSkipsUndecisive(prefix[1..], rest, f, folder);
      assert Resolve(prefix + rest, f, folder) == Resolve((prefix + rest)[1..], f, folder);
    } else {
      assert prefix + rest == rest;
    }
  }

  /** Once some rule decides the file, rules appended after the list are
      never consulted (the `break`). */
  lemma {:induction false} ResolveIgnoresLaterRules(rules: seq<Rule>, later: seq<Rule>, f: FileEntry, folder: string, i: nat)
    requires i < |rules| && Decides(rules[i], f, folder)
    ensures Resolve(rules + later, f, folder) == Resolve(rules, f, folder)
  {
    if Decides(rules[0], f, folder) {
      assert (rules + later)[0] == rules[0];
    } else {
      assert (rules + later)[0] == rules[0];
      assert (rules + later)[1..] == rules[1..] + later;
      assert rules[1..][i - 1] == rules[i];
      ResolveIgnoresLaterRules(rules[1..], later, f, folder, i - 1);
    }
  }

  /** A matching "move" rule without a usable destination is skipped and the
      next rules are tried (the `continue`). */
  lemma {:induction false} MissingDestinationFallsThrough(rule: Rule, rest: seq<Rule>, f: FileEntry, folder: string)
    requires ActionOf(rule) == "move" && !HasDestination(rule)
    ensures Resolve([rule] + rest, f, folder) == Resolve(rest, f, folder)
  {
    assert ([rule] + rest)[1..] == rest;
  }

  /** A matching rule whose action is neither "move" nor "delete" produces no
      record and still ends rule processing for the file. */
  lemma {:induction false} UnknownActionStops(rule: Rule, rest: seq<Rule>, f: FileEntry, folder: string)
    requires Matches(rule, f, folder)
    requires ActionOf(rule) != "move" && ActionOf(rule) != "delete"
    ensures Resolve([rule] + rest, f, folder) == None
  {
    assert ([rule] + rest)[0] == rule;
  }
}
