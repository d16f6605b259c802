/** The analyzer's work once the completion oracle has answered: defaults and create
    post-processing for a decoded reply, the keyword fallback for a reply that is not JSON, and the
    error record for every other failure. The oracle itself and the prompt are not modelled: its
    reply is an input. */
module Analyzer {
  import opened Values
  import opened Text
  import opened Patterns

  /** A due date inside a draft: text as the oracle wrote it (meant to be `YYYY-MM-DD HH:MM:SS`),
      or an instant, in seconds on the host clock, that the analyzer formats itself in that layout. */
  datatype Due = Written(text: string) | At(seconds: int)

  /** One entry of the `todos` list (or the `todo_info` object) of an analysis. */
  datatype Draft = Draft(
    title: Field<string>,
    description: Field<string>,
    dueDate: Field<Due>,
    priority: Field<int>,
    category: Field<string>)

  /** The analysis record: the keys of the decoded JSON object that the core reads or writes.
      (`filters` and `view_options` are read by nobody and are not carried.) */
  datatype Analysis = Analysis(
    action: Field<string>,
    uiAction: Field<string>,
    todos: Field<seq<Draft>>,
    todoInfo: Field<Draft>,
    error: Field<string>,
    details: Field<string>)

  /** What came back from the oracle: no reply at all (network, missing keys in the response,
      ...), text that `json.loads` rejects, JSON that is not an object (a list, a string, a
      number: the first dictionary operation on it raises), or a decoded object. Each failure
      carries the text of the exception it raises. */
  datatype OracleReply =
    | Unavailable(reason: string)
    | NotJson(reason: string)
    | NotAnObject(reason: string)
    | Decoded(record: Analysis)

  /** A Python expression that either gives a value or raises (with the exception's text). */
  datatype Outcome<T> = Ok(value: T) | Raised(message: string)

  const GenericError := "An error occurred while processing your request. Please try again."
  const NotUnderstood := "Failed to understand the request. Please try again."
  const IndexOutOfRange := "list index out of range"
  const NoneNotSubscriptable := "'NoneType' object is not subscriptable"
  const NoneHasNoSplit := "'NoneType' object has no attribute 'split'"
  const SecondsPerHour := 3600

  /** A word the cleanup removes: never empty. */
  type Word = w: string | |w| > 0 witness "a"

  /** The words `basic_cleanup` removes, in the order it removes them. */
  const ActionWords: seq<Word> := ["add", "create", "delete", "remove", "update", "change",
    "complete", "finish", "done", "need to", "have to", "must", "should", "want to",
    "going to", "task", "todo"]

  /** The record returned by the outermost `except`: any failure while handling the reply. */
  function ErrorRecord(details: string): Analysis
  {
    Analysis(Present("error"), Absent, Absent, Absent, Present(GenericError), Present(details))
  }

  // ---------------------------------------------------------------------------
  // Title normalisation: " ".join(word.capitalize() for word in title.split())

  function CapitalizeAll(ws: seq<string>): seq<string>
  {
    seq(|ws|, i requires 0 <= i < |ws| => Capitalize(ws[i]))
  }

  function NormalizeTitle(title: string): string
  {
    Join(CapitalizeAll(Words(title)))
  }

  lemma CapitalizeKeepsToken(w: string)
    requires IsToken(w)
    ensures IsToken(Capitalize(w))
  {
    var c := Capitalize(w);
    assert |c| == |w|;
    forall i | 0 <= i < |c|
      ensures !IsSpace(c[i])
    {
      if i > 0 {
        assert c[i] == ToLower(w[i]);
      }
    }
  }

  /** The words of a normalised title are the words of the original, each capitalised, in order
      (so blanks are single spaces and there are none at either end). */
  lemma NormalizeTitleWords(title: string)
    ensures Words(NormalizeTitle(title)) == CapitalizeAll(Words(title))
  {
    var ws := CapitalizeAll(Words(title));
    forall i | 0 <= i < |ws|
      ensures IsToken(ws[i])
    {
      CapitalizeKeepsToken(Words(title)[i]);
    }
    WordsOfJoin(ws);
  }

  /** Normalising a normalised title changes nothing. */
  lemma NormalizeTitleIdempotent(title: string)
    ensures NormalizeTitle(NormalizeTitle(title)) == NormalizeTitle(title)
  {
    var once := CapitalizeAll(Words(title));
    NormalizeTitleWords(title);
    CapitalizeAllIdempotent(Words(title));
    calc {
      NormalizeTitle(NormalizeTitle(title));
      Join(CapitalizeAll(Words(NormalizeTitle(title))));
      Join(CapitalizeAll(once));
      { assert CapitalizeAll(once) == once; }
      Join(once);
    }
  }

  lemma CapitalizeAllIdempotent(ws: seq<string>)
    ensures CapitalizeAll(CapitalizeAll(ws)) == CapitalizeAll(ws)
  {
    var once := CapitalizeAll(ws);
    var twice := CapitalizeAll(once);
    forall i | 0 <= i < |ws|
      ensures twice[i] == once[i]
    {
      CapitalizeIdempotent(ws[i]);
    }
  }

  // ---------------------------------------------------------------------------
  // Create post-processing

  /** The list items: the input cut at every comma with each piece stripped, or the whole input,
      untouched, when it holds no comma. */
  function Pieces(input: string): seq<string>
  {
    if ',' in input then
      var parts := Split(input, ',');
      seq(|parts|, i requires 0 <= i < |parts| => Strip(parts[i]))
    else [input]
  }

  /** One piece per comma-separated item: one more than the number of commas. */
  lemma PiecesCount(input: string)
    ensures |Pieces(input)| == Count(input, ',') + 1
  {
    SplitSpec(input, ',');
    if ',' !in input {
      NoCommaCount(input);
    }
  }

  lemma {:induction false} NoCommaCount(s: string)
    requires ',' !in s
    ensures Count(s, ',') == 0
  {
    if s != [] {
      assert s == [s[0]] + s[1..];
      NoCommaCount(s[1..]);
    }
  }

  /** `parsed.get("todos", [{}])[0]`. */
  function FirstDraft(todos: Field<seq<Draft>>): Outcome<Draft>
  {
    match todos
    case Absent => Ok(Draft(Absent, Absent, Absent, Absent, Absent))
    case Null => Raised(NoneNotSubscriptable)
    case Present(ds) => if ds == [] then Raised(IndexOutOfRange) else Ok(ds[0])
  }

  /** The text a draft's title is made from: the oracle's first title, or the stripped item. */
  function TitleSource(first: Draft, piece: string): string
  {
    if first.title.Present? then first.title.value else Strip(piece)
  }

  /** The draft built for one list item from the oracle's first draft. */
  function ShapeDraft(first: Draft, piece: string, now: int): Draft
    requires !first.title.Null?
  {
    var title := NormalizeTitle(TitleSource(first, piece));
    var shaped := Draft(
      Present(title),
      if first.description.Absent? then Present(title) else first.description,
      if first.dueDate.Present? then first.dueDate else Null,
      if first.priority.Absent? then Present(1) else first.priority,
      if first.category.Present? then first.category else Null);
    match ScanHours(Lower(piece))
    case None => shaped
    case Some(hours) =>
      shaped.(dueDate := Present(At(now + hours * SecondsPerHour)),
              description := Present(Capitalize(title) + " (Due in " + NatToString(hours) + " hours)"))
  }

  function ShapeAll(first: Draft, pieces: seq<string>, now: int): seq<Draft>
    requires !first.title.Null?
  {
    seq(|pieces|, i requires 0 <= i < |pieces| => ShapeDraft(first, pieces[i], now))
  }

  /** Mapping a prefix one element longer appends that element's image. */
  lemma MapSnoc<A, B>(f: A -> B, xs: seq<A>, i: nat)
    requires i < |xs|
    ensures seq(i + 1, j requires 0 <= j < i + 1 => f(xs[j])) ==
            seq(i, j requires 0 <= j < i => f(xs[j])) + [f(xs[i])]
  {
  }

  lemma ShapeAllByMap(first: Draft, pieces: seq<string>, now: int, shape: string -> Draft)
    requires !first.title.Null?
    requires forall piece :: shape(piece) == ShapeDraft(first, piece, now)
    ensures seq(|pieces|, j requires 0 <= j < |pieces| => shape(pieces[j])) == ShapeAll(first, pieces, now)
  {
  }

  /** The `create` branch on a record whose `todos` key is already set. */
  function CreateResult(parsed: Analysis, input: string, now: int): Analysis
  {
    match FirstDraft(parsed.todos)
    case Raised(message) => ErrorRecord(message)
    case Ok(first) =>
      if first.title.Null? then ErrorRecord(NoneHasNoSplit)
      else
        parsed.(todos := Present(ShapeAll(first, Pieces(input), now)),
                uiAction := if parsed.uiAction.Absent? then Present("add_item") else parsed.uiAction)
  }

  /** The loop that appends one draft per list item; `shape` turns an item into its draft. */
  method BuildDrafts(shape: string -> Draft, pieces: seq<string>) returns (drafts: seq<Draft>)
    ensures drafts == seq(|pieces|, j requires 0 <= j < |pieces| => shape(pieces[j]))
  {
    drafts := [];
    for i := 0 to |pieces|
      invariant drafts == seq(i, j requires 0 <= j < i => shape(pieces[j]))
    {
      MapSnoc(shape, pieces, i);
      drafts := drafts + [shape(pieces[i])];
    }
  }

  /** Builds the drafts one list item at a time and replaces the oracle's list with them. The
      first draft is read once: the loop re-reads the same entry on every pass, and as there is
      always at least one item, a read that raises raises on the first pass. */
  method PostProcessCreate(parsed: Analysis, input: string, now: int) returns (r: Analysis)
    ensures r == CreateResult(parsed, input, now)
  {
    var pieces := Pieces(input);
    var lookup := FirstDraft(parsed.todos);
    if lookup.Raised? {
      return ErrorRecord(lookup.message);
    }
    var first := lookup.value;
    if first.title.Null? {
      return ErrorRecord(NoneHasNoSplit);
    }
    var shape: string -> Draft := piece => ShapeDraft(first, piece, now);
    var drafts := BuildDrafts(shape, pieces);
    ShapeAllByMap(first, pieces, now, shape);
    r := parsed.(todos := Present(drafts));
    if r.uiAction.Absent? {
      r := r.(uiAction := Present("add_item"));
    }
  }

  // ---------------------------------------------------------------------------
  // Fallback for a reply that is not JSON

  /** Applies `re.sub(r'\b' + w + r'\b', '', text)` for each word of `ws` in order. */
  function RemoveWords(s: string, ws: seq<Word>): string
  {
    if ws == [] then s else RemoveBounded(RemoveWords(s, ws[..|ws| - 1]), ws[|ws| - 1])
  }

  /** Every action word starts and ends with a word character and holds at most one space
      between two words, so removing its whole-word matches cannot form a new one. */
  lemma ActionWordsShaped()
    ensures forall k :: 0 <= k < |ActionWords| ==> WordShaped(ActionWords[k])
  {
  }

  /** Each removal step of `basic_cleanup` leaves no whole-word occurrence of the word it
      removes. The text after all the steps is not covered: `\s+` turns "need  to" into
      "need to". */
  lemma CleanupStepClears(text: string, k: nat)
    requires k < |ActionWords|
    ensures NoWholeWord(RemoveWords(Lower(text), ActionWords[..k + 1]), ActionWords[k])
  {
    assert ActionWords[..k + 1][..k] == ActionWords[..k];
    ActionWordsShaped();
    RemoveBoundedClears(RemoveWords(Lower(text), ActionWords[..k]), ActionWords[k]);
  }

  /** The last three steps of `basic_cleanup`: `\s+` to one space, `strip()`, then `^\W+|\W+$`
      removed. */
  function Tidy(s: string): string
  {
    TrimNonWord(Strip(CollapseSpace(s)))
  }

  /** `basic_cleanup(text)` */
  function Cleaned(text: string): string
  {
    Tidy(RemoveWords(Lower(text), ActionWords))
  }

  /** After the last three steps the text is empty or begins and ends with a word character, and
      its only whitespace is single spaces. */
  lemma TidyShape(s: string)
    ensures var r := Tidy(s);
      (r == [] || (IsWordChar(r[0]) && IsWordChar(r[|r| - 1]))) && NoSpaceRun(r) && OnlyBlanks(r)
  {
    CollapseSpaceSpec(s);
    StripKeepsBlanks(CollapseSpace(s));
    TrimKeepsBlanks(Strip(CollapseSpace(s)));
    var _ := TrimNonWordSpec(Strip(CollapseSpace(s)));
  }

  /** `basic_cleanup`: lower-case, drop each action word where it stands as a whole word,
      collapse whitespace, strip, and cut non-word characters from both ends. */
  method BasicCleanup(text: string) returns (r: string)
    ensures r == Cleaned(text)
    ensures r == [] || (IsWordChar(r[0]) && IsWordChar(r[|r| - 1]))
    ensures NoSpaceRun(r) && OnlyBlanks(r)
  {
    var t := Lower(text);
    for k := 0 to |ActionWords|
      invariant t == RemoveWords(Lower(text), ActionWords[..k])
    {
      assert ActionWords[..k + 1][..k] == ActionWords[..k];
      t := RemoveBounded(t, ActionWords[k]);
    }
    assert ActionWords[..|ActionWords|] == ActionWords;
    t := Strip(CollapseSpace(t));
    r := TrimNonWord(t);
    TidyShape(RemoveWords(Lower(text), ActionWords));
  }

  predicate HasDeleteWord(s: string)
  {
    Contains(s, "delete") || Contains(s, "remove") || Contains(s, "cancel")
  }

  predicate HasCompleteWord(s: string)
  {
    Contains(s, "done") || Contains(s, "complete") || Contains(s, "finished")
  }

  /** The keyword action classifier: plain substring tests on the lower-cased input, the delete
      words checked first. */
  function Classify(input: string): (action: string)
    ensures action == "delete" || action == "mark_complete" || action == "create"
  {
    var s := Lower(input);
    if HasDeleteWord(s) then "delete"
    else if HasCompleteWord(s) then "mark_complete"
    else "create"
  }

  /** The fallback record for a cleaned, capitalised task name. */
  function FallbackRecord(name: string, action: string, reason: string): Analysis
  {
    if name != [] then
      Analysis(Present(action),
               Present(if action == "create" then "add_item" else "update_item"),
               Present([Draft(Present(name), Null, Null, Present(1), Null)]),
               Absent, Absent, Absent)
    else
      Analysis(Present("error"), Absent, Absent, Absent, Present(NotUnderstood), Present(reason))
  }

  function TaskName(input: string): string
  {
    Capitalize(Strip(Cleaned(Lower(input))))
  }

  // ---------------------------------------------------------------------------
  // The whole of analyze_input after the oracle call

  /** A decoded record with its `todos` key defaulted to the empty list. */
  function WithTodos(parsed: Analysis): Analysis
  {
    if parsed.todos.Absent? then parsed.(todos := Present([])) else parsed
  }

  function AnalysisOf(input: string, reply: OracleReply, now: int): Analysis
  {
    match reply
    case Unavailable(reason) => ErrorRecord(reason)
    case NotAnObject(reason) => ErrorRecord(reason)
    case NotJson(reason) => FallbackRecord(TaskName(input), Classify(input), reason)
    case Decoded(parsed) =>
      var p := WithTodos(parsed);
      if p.action == Present("create") then CreateResult(p, input, now) else p
  }

  /** `TodoAnalyzer.analyze_input` from the moment the oracle has answered (or failed to);
      `now` is the host clock's reading. It never raises: every failure becomes a record. */
  method Analyze(input: string, reply: OracleReply, now: int) returns (r: Analysis)
    ensures r == AnalysisOf(input, reply, now)
  {
    match reply {
      case Unavailable(reason) =>
        r := ErrorRecord(reason);
      case NotAnObject(reason) =>
        r := ErrorRecord(reason);
      case NotJson(reason) =>
        var name := BasicCleanup(Lower(input));
        name := Capitalize(Strip(name));
        r := FallbackRecord(name, Classify(input), reason);
      case Decoded(parsed) =>
        var p := parsed;
        if p.todos.Absent? {
          p := p.(todos := Present([]));
        }
        if p.action == Present("create") {
          r := PostProcessCreate(p, input, now);
        } else {
          r := p;
        }
    }
  }

  // ---------------------------------------------------------------------------
  // What analyze_input promises

  /** The oracle's first draft can be read: the `todos` list is there, is not empty, and its first
      entry's title is not null. */
  predicate FirstDraftReadable(parsed: Analysis)
  {
    parsed.todos.Present? && parsed.todos.value != [] && !parsed.todos.value[0].title.Null?
  }

  /** A decoded `create` whose first draft can be read yields one draft per comma-separated item
      (one when there is no comma), the i-th built from the oracle's first draft and the i-th
      item, in place of the oracle's list; `ui_action` defaults to `add_item`, and the other keys
      are kept. */
  lemma CreateOneDraftPerItem(input: string, parsed: Analysis, now: int)
    requires parsed.action == Present("create") && FirstDraftReadable(parsed)
    ensures var r := AnalysisOf(input, Decoded(parsed), now);
      var first := parsed.todos.value[0];
      r.todos.Present? && |r.todos.value| == |Pieces(input)| == Count(input, ',') + 1 &&
      (forall i :: 0 <= i < |Pieces(input)| ==>
        r.todos.value[i] == ShapeDraft(first, Pieces(input)[i], now)) &&
      r.uiAction == (if parsed.uiAction.Absent? then Present("add_item") else parsed.uiAction) &&
      r.action == parsed.action && r.todoInfo == parsed.todoInfo &&
      r.error == parsed.error && r.details == parsed.details
  {
    PiecesCount(input);
  }

  /** A decoded `create` whose first draft cannot be read (no list, an empty one, or a null title)
      raises inside the handler and gives the generic error record. */
  lemma CreateWithoutFirstDraftFails(input: string, parsed: Analysis, now: int)
    requires parsed.action == Present("create") && !FirstDraftReadable(parsed)
    ensures var r := AnalysisOf(input, Decoded(parsed), now);
      r.action == Present("error") && r.error == Present(GenericError) && r.todos.Absent?
  {
  }

  /** A draft takes its title, priority and category from the oracle's first draft, and its own
      list item serves as the title only when that draft has no title; the title is normalised
      (see `NormalizeTitleWords` and `NormalizeTitleIdempotent`). The source promises no more
      than this copying rule: every list item becomes a task shaped like the first draft, so the
      lemma states that rule field by field, and the due date on its own lemmas. */
  lemma ShapedDraftFromFirst(first: Draft, piece: string, now: int)
    requires !first.title.Null?
    ensures var d := ShapeDraft(first, piece, now);
      d.title == Present(NormalizeTitle(if first.title.Present? then first.title.value else Strip(piece))) &&
      d.priority == (if first.priority.Absent? then Present(1) else first.priority) &&
      d.category == (if first.category.Present? then first.category else Null)
  {
  }

  /** A list item in which `(\d+)\s*(hr|hour|hrs|hours)` matches nowhere (after lower-casing)
      keeps the oracle's due date (or null) and description (or the title). */
  lemma ShapedDraftWithoutDuration(first: Draft, piece: string, now: int)
    requires !first.title.Null?
    requires forall a, b, c :: !HoursMatch(Lower(piece), a, b, c)
    ensures var d := ShapeDraft(first, piece, now);
      d.dueDate == (if first.dueDate.Present? then first.dueDate else Null) &&
      d.description == (if first.description.Absent? then d.title else first.description)
  {
    ScanHoursSpec(Lower(piece));
  }

  /** The draft is due `n` hours after `now`, and its description says so. */
  predicate DueIn(d: Draft, now: int, n: nat)
  {
    d.title.Present? &&
    d.dueDate == Present(At(now + n * SecondsPerHour)) &&
    d.description == Present(Capitalize(d.title.value) + " (Due in " + NatToString(n) + " hours)")
  }

  /** When the pattern matches the lower-cased item, the number N at its leftmost match gives a
      due date N hours after `now`, overriding the oracle's, and the description becomes
      `"<Title> (Due in N hours)"`. */
  lemma ShapedDraftDueIn(first: Draft, piece: string, now: int, a: int, b: int, c: int)
    requires !first.title.Null?
    requires HoursMatch(Lower(piece), a, b, c)
    requires forall a', b', c' :: HoursMatch(Lower(piece), a', b', c') ==> a <= a'
    ensures DueIn(ShapeDraft(first, piece, now), now, GroupValue(Lower(piece), a, b))
  {
    var n := GroupValue(Lower(piece), a, b);
    ScanHoursAtLeftmost(Lower(piece), a, b, c);
    ShapedDraftScanned(first, piece, now, n);
  }

  lemma ShapedDraftScanned(first: Draft, piece: string, now: int, n: nat)
    requires !first.title.Null? && ScanHours(Lower(piece)) == Some(n)
    ensures DueIn(ShapeDraft(first, piece, now), now, n)
  {
  }

  /** Any decoded record other than a `create` comes back as it was, with a missing `todos` key
      set to the empty list. */
  lemma DecodedOtherwiseUnchanged(input: string, parsed: Analysis, now: int)
    requires parsed.action != Present("create")
    ensures var r := AnalysisOf(input, Decoded(parsed), now);
      r.todos == (if parsed.todos.Absent? then Present([]) else parsed.todos) &&
      r == parsed.(todos := r.todos)
  {
  }

  lemma StripUnchanged(s: string)
    requires s == [] || (!IsSpace(s[0]) && !IsSpace(s[|s| - 1]))
    ensures Strip(s) == s
  {
    assert DropLeading(s, Whitespace) == s;
  }

  /** The fallback record built from a cleaned text `c` of the shape `basic_cleanup` returns. */
  lemma FallbackFromCleaned(c: string, action: string, reason: string)
    requires c == [] || (IsWordChar(c[0]) && IsWordChar(c[|c| - 1]))
    ensures var name := Capitalize(Strip(c));
      var r := FallbackRecord(name, action, reason);
      (name == [] <==> c == []) &&
      (name != [] ==>
        r.action == Present(action) &&
        (r.uiAction == Present("add_item") <==> action == "create") &&
        r.todos.Present? && |r.todos.value| == 1 &&
        r.todos.value[0] == Draft(Present(name), Null, Null, Present(1), Null) &&
        IsWordChar(name[0]) && !IsLower(name[0]) && IsWordChar(name[|name| - 1])) &&
      (name == [] ==>
        r.action == Present("error") && r.error == Present(NotUnderstood) &&
        r.details == Present(reason) && r.todos.Absent?)
  {
    StripUnchanged(c);
    var name := Capitalize(c);
    if c != [] {
      assert name[0] == ToUpper(c[0]);
      if |c| > 1 {
        assert name[|name| - 1] == ToLower(c[|c| - 1]);
      }
    }
  }

  /** The fallback for a reply that is not JSON: a non-empty cleaned name gives exactly one draft,
      titled with that name, with priority 1 and null description, due date and category, the
      classifier's action, and `ui_action` `add_item` exactly when the action is `create`; an
      empty name gives the "failed to understand" error carrying the decoder's message. The name
      begins and ends with a word character and its first letter is upper-case. */
  lemma FallbackOutcome(input: string, reason: string, now: int)
    ensures var r := AnalysisOf(input, NotJson(reason), now);
      var name := TaskName(input);
      (name != [] ==>
        r.action == Present(Classify(input)) &&
        (r.uiAction == Present("add_item") <==> Classify(input) == "create") &&
        r.todos.Present? && |r.todos.value| == 1 &&
        r.todos.value[0] == Draft(Present(name), Null, Null, Present(1), Null) &&
        IsWordChar(name[0]) && !IsLower(name[0]) && IsWordChar(name[|name| - 1])) &&
      (name == [] ==>
        r.action == Present("error") && r.error == Present(NotUnderstood) &&
        r.details == Present(reason) && r.todos.Absent?)
  {
    var c := Cleaned(Lower(input));
    CleanedShape(Lower(input));
    FallbackFromCleaned(c, Classify(input), reason);
    assert AnalysisOf(input, NotJson(reason), now) == FallbackRecord(TaskName(input), Classify(input), reason);
  }

  lemma CleanedShape(text: string)
    ensures var c := Cleaned(text);
      c == [] || (IsWordChar(c[0]) && IsWordChar(c[|c| - 1]))
  {
    TidyShape(RemoveWords(Lower(text), ActionWords));
  }

  /** The delete keywords are checked first: the action is `delete` exactly when one of them
      occurs in the lower-cased input, whatever completion keyword occurs beside it. The fallback
      promises nothing beyond this keyword rule, so the rule, with its priority over the
      completion keywords, is the property. */
  lemma ClassifyDeleteFirst(input: string)
    ensures Classify(input) == "delete" <==> HasDeleteWord(Lower(input))
  {
  }

  /** Text holding "incomplete" holds "complete". */
  lemma IncompleteHoldsComplete(s: string)
    requires Contains(s, "incomplete")
    ensures Contains(s, "complete")
  {
    var i :| 0 <= i <= |s| - |"incomplete"| && OccursAt(s, "incomplete", i);
    assert s[i + 2..i + 10] == s[i..i + 10][2..] == "complete";
    assert OccursAt(s, "complete", i + 2);
  }

  /** "incomplete" counts as a completion keyword, since the tests are plain substring tests: an
      input saying a task is incomplete, with no delete keyword, is classified `mark_complete`. */
  lemma ClassifyIncomplete(input: string)
    requires Contains(Lower(input), "incomplete") && !HasDeleteWord(Lower(input))
    ensures Classify(input) == "mark_complete"
  {
    IncompleteHoldsComplete(Lower(input));
  }

  /** The action is `create` exactly when no keyword of either list occurs. Together with
      `ClassifyDeleteFirst` and `ClassifyIncomplete` this is the fallback's whole promise: a
      sentence without an action keyword is taken as a new task. */
  lemma ClassifyNoKeyword(input: string)
    ensures Classify(input) == "create" <==>
      !HasDeleteWord(Lower(input)) && !HasCompleteWord(Lower(input))
  {
  }

  /** Whatever the oracle does, the record handed back holds at least an `action` or a `todos`
      key: it is never the empty record. */
  lemma AnalysisNeverEmpty(input: string, reply: OracleReply, now: int)
    ensures var r := AnalysisOf(input, reply, now);
      r.action.Present? || !r.todos.Absent?
  {
  }
}
