/** The task service: the store of tasks, the owner-scoped listing, the two-stage title matcher,
    and the request handler that turns an analysis into a change of the store and a response.
    The store is the `todos` table in row order; every request sees it as it was left by the
    previous one. */
module TodoService {
  import opened Values
  import opened Text
  import opened Clock
  import opened Analyzer

  /** A row of the `todos` table (created/updated timestamps and the category link, which nothing
      here sets, are not carried). A title can be null: the column allows it. */
  datatype Todo = Todo(
    id: nat,
    title: Option<string>,
    description: Option<string>,
    dueDate: Option<Due>,
    completed: bool,
    priority: int,
    owner: nat)

  /** The signed-in user, as far as the service looks at it. */
  datatype User = User(id: nat, isAdmin: bool)

  /** One entry of a listing. The category entry is always null, since no task here has one. */
  datatype TodoView = TodoView(
    id: nat,
    title: Option<string>,
    description: Option<string>,
    completed: bool,
    priority: int,
    dueDate: Option<Due>)

  /** What a request answers: a listing `{"todos": [...], "message": ...}`, a failure
      `{"todos": [], "error": ...}`, or an HTTP error status with its detail. An exception that
      escapes the handler is the framework's status 500. */
  datatype Response =
    | Listing(items: seq<TodoView>, message: Option<string>)
    | Failed(error: Option<string>)
    | HttpError(status: nat, detail: string)

  const ServerError := HttpError(500, "Internal Server Error")
  const LoginFirst := "Please log in to view todos"

  /** Row ids are positive and strictly increasing in row order. */
  predicate IdsAscending(todos: seq<Todo>)
  {
    (forall i :: 0 <= i < |todos| ==> todos[i].id >= 1) &&
    (forall i, j :: 0 <= i < j < |todos| ==> todos[i].id < todos[j].id)
  }

  /** The id SQLite gives the next row: one more than the largest id, or 1 in an empty table. */
  function NextId(todos: seq<Todo>): (id: nat)
    requires IdsAscending(todos)
    ensures id >= 1 && forall i :: 0 <= i < |todos| ==> todos[i].id < id
  {
    if todos == [] then 1 else todos[|todos| - 1].id + 1
  }

  // ---------------------------------------------------------------------------
  // get_filtered_todos / get_todos_response

  /** Whether a user's listing shows a task: administrators see every task. */
  predicate SeenBy(t: Todo, user: User)
  {
    user.isAdmin || t.owner == user.id
  }

  /** The rows the listing query returns, in row order. */
  function Visible(todos: seq<Todo>, user: User): seq<Todo>
  {
    if todos == [] then []
    else (if SeenBy(todos[0], user) then [todos[0]] else []) + Visible(todos[1..], user)
  }

  function View(t: Todo): TodoView
  {
    TodoView(t.id, t.title, t.description, t.completed, t.priority, t.dueDate)
  }

  function Views(todos: seq<Todo>): seq<TodoView>
  {
    seq(|todos|, i requires 0 <= i < |todos| => View(todos[i]))
  }

  /** `get_filtered_todos`: no user gets an empty list and a prompt to log in; filters and view
      options are ignored. */
  function ListTodos(todos: seq<Todo>, user: Option<User>): Response
  {
    match user
    case None => Listing([], Some(LoginFirst))
    case Some(u) => Listing(Views(Visible(todos, u)), None)
  }

  /** `get_todos_response`: the listing with a message. */
  function TodosResponse(todos: seq<Todo>, user: User, message: string): Response
  {
    Listing(Views(Visible(todos, user)), Some(message))
  }

  /** The listing holds exactly the tasks the user may see, in row order and without repeats. */
  lemma {:induction false} VisibleSpec(todos: seq<Todo>, user: User)
    ensures |Visible(todos, user)| <= |todos|
    ensures forall t :: t in Visible(todos, user) <==> t in todos && SeenBy(t, user)
    ensures forall i :: 0 <= i < |Visible(todos, user)| ==> SeenBy(Visible(todos, user)[i], user)
    ensures IdsAscending(todos) ==> IdsAscending(Visible(todos, user))
  {
    if todos != [] {
      VisibleSpec(todos[1..], user);
      assert todos == [todos[0]] + todos[1..];
      var rest := Visible(todos[1..], user);
      if IdsAscending(todos) {
        assert IdsAscending(todos[1..]);
        forall j | 0 <= j < |rest|
          ensures todos[0].id < rest[j].id
        {
          assert rest[j] in todos[1..];
        }
      }
    }
  }

  /** An administrator's listing is the whole table. */
  lemma {:induction false} AdminSeesAll(todos: seq<Todo>, user: User)
    requires user.isAdmin
    ensures Visible(todos, user) == todos
  {
    if todos != [] {
      AdminSeesAll(todos[1..], user);
      assert todos == [todos[0]] + todos[1..];
    }
  }

  /** Without a user the listing is empty and asks to log in. A signed-in user's listing shows,
      for each of their tasks, its view; and every entry of it is the view of a task they may
      see. */
  lemma ListingShowsOwnTasks(todos: seq<Todo>, user: User)
    ensures ListTodos(todos, None) == Listing([], Some(LoginFirst))
    ensures var r := ListTodos(todos, Some(user));
      r.Listing? && r.message.None? &&
      (forall t :: t in todos && t.owner == user.id ==> View(t) in r.items) &&
      (forall v :: v in r.items ==> exists t :: t in todos && SeenBy(t, user) && v == View(t))
  {
    VisibleSpec(todos, user);
    var vis := Visible(todos, user);
    forall t | t in todos && t.owner == user.id
      ensures View(t) in Views(vis)
    {
      var k :| 0 <= k < |vis| && vis[k] == t;
      assert Views(vis)[k] == View(t);
    }
    forall v | v in Views(vis)
      ensures exists t :: t in todos && SeenBy(t, user) && v == View(t)
    {
      var k :| 0 <= k < |vis| && Views(vis)[k] == v;
      assert vis[k] in vis;
    }
  }

  // ---------------------------------------------------------------------------
  // find_matching_todo

  /** Where the matcher ends: the index of the row it returns, no row, or an exception (a null
      title meeting `.lower()`), which escapes the handler as status 500. */
  datatype MatchResult = Found(index: nat) | NotFound | Crashed

  /** `f"{title}"`: a missing title formats as `None`. */
  function TitleText(title: Option<string>): string
  {
    match title
    case None => "None"
    case Some(s) => s
  }

  /** `title ILIKE '%needle%'`: a null title matches nothing; the comparison ignores ASCII case. */
  predicate TitleLike(t: Todo, needle: string)
  {
    t.title.Some? && Contains(Lower(t.title.value), Lower(needle))
  }

  /** `any(word in title for word in words)` on a lower-cased title. */
  predicate AnyWordIn(title: string, words: seq<string>)
  {
    exists k :: 0 <= k < |words| && Contains(title, words[k])
  }

  /** A row the second stage accepts. */
  predicate WordHit(t: Todo, words: seq<string>)
  {
    t.title.Some? && AnyWordIn(Lower(t.title.value), words)
  }

  /** Stage one, the query: the first of the user's rows, from `i` on, whose title contains the
      needle. */
  function FirstLike(todos: seq<Todo>, needle: string, uid: nat, i: nat): (r: Option<nat>)
    requires i <= |todos|
    ensures r.Some? ==> i <= r.value < |todos| && todos[r.value].owner == uid
    decreases |todos| - i
  {
    if i == |todos| then None
    else if todos[i].owner == uid && TitleLike(todos[i], needle) then Some(i)
    else FirstLike(todos, needle, uid, i + 1)
  }

  /** Stage two, the loop over the user's rows from `i` on: a null title raises, a title holding
      one of the words is returned. */
  function ScanWords(todos: seq<Todo>, words: seq<string>, uid: nat, i: nat): (r: MatchResult)
    requires i <= |todos|
    ensures r.Found? ==> i <= r.index < |todos| && todos[r.index].owner == uid
    decreases |todos| - i
  {
    if i == |todos| then NotFound
    else if todos[i].owner != uid then ScanWords(todos, words, uid, i + 1)
    else if todos[i].title.None? then Crashed
    else if AnyWordIn(Lower(todos[i].title.value), words) then Found(i)
    else ScanWords(todos, words, uid, i + 1)
  }

  /** `find_matching_todo(db, title, user_id)`: it only ever returns one of the user's own rows. */
  function Matching(todos: seq<Todo>, title: Option<string>, uid: nat): (r: MatchResult)
    ensures r.Found? ==> r.index < |todos| && todos[r.index].owner == uid
  {
    match FirstLike(todos, TitleText(title), uid, 0)
    case Some(i) => Found(i)
    case None =>
      if title.None? then Crashed
      else ScanWords(todos, Words(Lower(title.value)), uid, 0)
  }

  lemma {:induction false} FirstLikeSpec(todos: seq<Todo>, needle: string, uid: nat, i: nat)
    requires i <= |todos|
    ensures FirstLike(todos, needle, uid, i).None? <==>
      forall j :: i <= j < |todos| && todos[j].owner == uid ==> !TitleLike(todos[j], needle)
    ensures FirstLike(todos, needle, uid, i).Some? ==>
      var k := FirstLike(todos, needle, uid, i).value;
      i <= k < |todos| && todos[k].owner == uid && TitleLike(todos[k], needle) &&
      forall j :: i <= j < k && todos[j].owner == uid ==> !TitleLike(todos[j], needle)
    decreases |todos| - i
  {
    if i < |todos| {
      FirstLikeSpec(todos, needle, uid, i + 1);
    }
  }

  /** A row the second stage passes over: another user's, or one with a title holding none of
      the words. */
  predicate PassedOver(t: Todo, words: seq<string>, uid: nat)
  {
    t.owner == uid ==> t.title.Some? && !WordHit(t, words)
  }

  lemma {:induction false} ScanWordsSpec(todos: seq<Todo>, words: seq<string>, uid: nat, i: nat)
    requires i <= |todos|
    ensures ScanWords(todos, words, uid, i).Found? ==>
      var k := ScanWords(todos, words, uid, i).index;
      i <= k < |todos| && todos[k].owner == uid && WordHit(todos[k], words) &&
      forall j :: i <= j < k ==> PassedOver(todos[j], words, uid)
    ensures ScanWords(todos, words, uid, i).NotFound? <==>
      forall j :: i <= j < |todos| ==> PassedOver(todos[j], words, uid)
    ensures ScanWords(todos, words, uid, i).Crashed? ==>
      exists k :: i <= k < |todos| && todos[k].owner == uid && todos[k].title.None? &&
        forall j :: i <= j < k ==> PassedOver(todos[j], words, uid)
    decreases |todos| - i
  {
    if i < |todos| {
      ScanWordsSpec(todos, words, uid, i + 1);
      var t := todos[i];
      if t.owner == uid && t.title.None? {
        assert ScanWords(todos, words, uid, i).Crashed?;
        assert !PassedOver(t, words, uid);
      } else if t.owner == uid && WordHit(t, words) {
        assert ScanWords(todos, words, uid, i) == Found(i);
        assert !PassedOver(t, words, uid);
      } else {
        assert PassedOver(t, words, uid);
        assert ScanWords(todos, words, uid, i) == ScanWords(todos, words, uid, i + 1);
        if ScanWords(todos, words, uid, i).Crashed? {
          var k :| i + 1 <= k < |todos| && todos[k].owner == uid && todos[k].title.None? &&
            forall j :: i + 1 <= j < k ==> PassedOver(todos[j], words, uid);
          assert forall j :: i <= j < k ==> PassedOver(todos[j], words, uid);
        }
      }
    }
  }

  /** Stage one wins: when some row of the user's contains the searched text, ignoring case, the
      first such row is the match. */
  lemma MatchingPrefersWholeText(todos: seq<Todo>, title: Option<string>, uid: nat, i: nat)
    requires i < |todos| && todos[i].owner == uid && TitleLike(todos[i], TitleText(title))
    requires forall j :: 0 <= j < i && todos[j].owner == uid ==> !TitleLike(todos[j], TitleText(title))
    ensures Matching(todos, title, uid) == Found(i)
  {
    FirstLikeSpec(todos, TitleText(title), uid, 0);
    var k := FirstLike(todos, TitleText(title), uid, 0).value;
    assert !(k < i) && !(i < k);
  }

  /** Stage two: when no row of the user's contains the whole text, the match is the first of
      their rows whose title holds one of the searched words; it fails when every title of theirs
      is there and holds none of them; and a search for a null title, or a null title met before
      any hit, raises. */
  lemma MatchingByWords(todos: seq<Todo>, title: Option<string>, uid: nat)
    requires forall j :: 0 <= j < |todos| && todos[j].owner == uid ==> !TitleLike(todos[j], TitleText(title))
    ensures title.None? ==> Matching(todos, title, uid) == Crashed
    ensures title.Some? ==>
      var words := Words(Lower(title.value));
      (Matching(todos, title, uid).Found? ==>
        var k := Matching(todos, title, uid).index;
        k < |todos| && todos[k].owner == uid && WordHit(todos[k], words) &&
        forall j :: 0 <= j < k ==> PassedOver(todos[j], words, uid)) &&
      (Matching(todos, title, uid) == NotFound <==>
        forall j :: 0 <= j < |todos| ==> PassedOver(todos[j], words, uid))
  {
    FirstLikeSpec(todos, TitleText(title), uid, 0);
    if title.Some? {
      ScanWordsSpec(todos, Words(Lower(title.value)), uid, 0);
    }
  }

  /** The matcher as written: the query, then a loop over the user's rows in row order. */
  method FindMatching(todos: seq<Todo>, title: Option<string>, uid: nat) returns (r: MatchResult)
    ensures r == Matching(todos, title, uid)
  {
    var first := FirstLike(todos, TitleText(title), uid, 0);
    if first.Some? {
      return Found(first.value);
    }
    if title.None? {
      return Crashed;
    }
    var words := Words(Lower(title.value));
    var i := 0;
    while i < |todos|
      invariant 0 <= i <= |todos|
      invariant ScanWords(todos, words, uid, i) == ScanWords(todos, words, uid, 0)
    {
      var t := todos[i];
      if t.owner == uid {
        if t.title.None? {
          return Crashed;
        }
        if AnyWordIn(Lower(t.title.value), words) {
          return Found(i);
        }
      }
      i := i + 1;
    }
    return NotFound;
  }

  // ---------------------------------------------------------------------------
  // Resolving the title a status change or a deletion looks for

  /** The words dropped from the input to rebuild a title, in the order they are dropped. */
  const MarkWords: seq<string> := ["mark", "as", "complete", "completed", "incomplete", "done", "todo", "task"]
  const DeleteWords: seq<string> := ["delete", "remove", "todo", "task"]

  /** The text of the `KeyError` raised by `d["title"]` on a draft without that key. */
  const MissingTitle := "'title'"

  /** `for word in words: s = s.replace(word, "")` */
  function RemoveEach(s: string, words: seq<string>): string
    requires forall k :: 0 <= k < |words| ==> |words[k]| > 0
    decreases |words|
  {
    if words == [] then s else RemoveEach(RemoveAll(s, words[0]), words[1..])
  }

  /** Dropping the words leaves the text as it is exactly when none of them occurs in it, and never
      lengthens it. */
  lemma {:induction false} RemoveEachChanges(s: string, words: seq<string>)
    requires forall k :: 0 <= k < |words| ==> |words[k]| > 0
    ensures |RemoveEach(s, words)| <= |s|
    ensures RemoveEach(s, words) == s <==> forall k :: 0 <= k < |words| ==> !Contains(s, words[k])
    decreases |words|
  {
    if words != [] {
      var t := RemoveAll(s, words[0]);
      RemoveAllChanges(s, words[0]);
      RemoveEachChanges(t, words[1..]);
      if !Contains(s, words[0]) {
        assert forall k :: 1 <= k < |words| ==> words[k] == words[1..][k - 1];
      }
    }
  }

  /** `d["title"]` */
  function DraftTitle(d: Draft): Outcome<Option<string>>
  {
    match d.title
    case Absent => Raised(MissingTitle)
    case Null => Ok(None)
    case Present(s) => Ok(Some(s))
  }

  /** The title the status change and the deletion look for: the first draft's, else the one in
      `todo_info`, else the input with the given words dropped, stripped and capitalised. */
  function SearchTitle(analysis: Analysis, input: string, words: seq<string>): Outcome<Option<string>>
    requires forall k :: 0 <= k < |words| ==> |words[k]| > 0
  {
    if analysis.todos.Present? && analysis.todos.value != [] then DraftTitle(analysis.todos.value[0])
    else
      match analysis.todoInfo
      case Absent => Ok(Some(Capitalize(Strip(RemoveEach(Lower(input), words)))))
      case Null => Raised(NoneNotSubscriptable)
      case Present(d) => DraftTitle(d)
  }

  /** The title lookup as written, dropping the words one at a time. */
  method ResolveTitle(analysis: Analysis, input: string, words: seq<string>) returns (r: Outcome<Option<string>>)
    requires forall k :: 0 <= k < |words| ==> |words[k]| > 0
    ensures r == SearchTitle(analysis, input, words)
  {
    if analysis.todos.Present? && analysis.todos.value != [] {
      return DraftTitle(analysis.todos.value[0]);
    }
    match analysis.todoInfo {
      case Null =>
        return Raised(NoneNotSubscriptable);
      case Present(d) =>
        return DraftTitle(d);
      case Absent =>
        var text := Lower(input);
        for k := 0 to |words|
          invariant RemoveEach(text, words[k..]) == RemoveEach(Lower(input), words)
        {
          assert words[k..][1..] == words[k + 1..];
          text := RemoveAll(text, words[k]);
        }
        return Ok(Some(Capitalize(Strip(text))));
    }
  }

  // ---------------------------------------------------------------------------
  // What each action does to the store

  /** The store after a request, and the request's answer. */
  datatype Effect = Effect(store: seq<Todo>, response: Response)

  function NotFoundDetail(title: Option<string>): string
  {
    "Todo not found: " + TitleText(title)
  }

  function CompletionMessage(complete: bool): string
  {
    if complete then "Todo marked as complete" else "Todo marked as incomplete"
  }

  /** `mark_complete` / `mark_incomplete`: set the matched row's completion flag. */
  function MarkEffect(todos: seq<Todo>, analysis: Analysis, input: string, user: User, complete: bool): Effect
  {
    match SearchTitle(analysis, input, MarkWords)
    case Raised(_) => Effect(todos, ServerError)
    case Ok(title) =>
      match Matching(todos, title, user.id)
      case Crashed => Effect(todos, ServerError)
      case NotFound => Effect(todos, HttpError(404, NotFoundDetail(title)))
      case Found(i) =>
        var ts := todos[i := todos[i].(completed := complete)];
        Effect(ts, TodosResponse(ts, user, CompletionMessage(complete)))
  }

  /** `delete`: remove the matched row. */
  function DeleteEffect(todos: seq<Todo>, analysis: Analysis, input: string, user: User): Effect
  {
    match SearchTitle(analysis, input, DeleteWords)
    case Raised(_) => Effect(todos, ServerError)
    case Ok(title) =>
      match Matching(todos, title, user.id)
      case Crashed => Effect(todos, ServerError)
      case NotFound => Effect(todos, HttpError(404, NotFoundDetail(title)))
      case Found(i) =>
        var ts := todos[..i] + todos[i + 1..];
        Effect(ts, TodosResponse(ts, user, "Todo deleted successfully"))
  }

  const CreateFailed := "Failed to create todo. Please try again."

  /** `todos_to_create`: the analysis's drafts; when there are none, the four keys of `todo_info`
      (each one must be there); when there is no `todo_info` either, the input itself. */
  function CreateBatch(analysis: Analysis, input: string): (r: Outcome<seq<Draft>>)
    ensures r.Ok? ==> r.value != []
  {
    if analysis.todos.Present? && analysis.todos.value != [] then Ok(analysis.todos.value)
    else
      match analysis.todoInfo
      case Absent => Ok([Draft(Present(input), Present(input), Null, Present(1), Absent)])
      case Null => Raised(NoneNotSubscriptable)
      case Present(d) =>
        if d.title.Absent? || d.description.Absent? || d.dueDate.Absent? || d.priority.Absent? then
          Raised("KeyError")
        else Ok([Draft(d.title, d.description, d.dueDate, d.priority, Absent)])
  }

  /** `if d.get("due_date"): strptime(...)`: an empty or missing due date is skipped; a text must
      have the layout; an instant the analyzer formatted always does. */
  predicate DueAccepted(due: Field<Due>)
  {
    match due
    case Present(Written(s)) => s == [] || IsDateTimeText(s)
    case _ => true
  }

  function StoredDue(due: Field<Due>): Option<Due>
  {
    match due
    case Present(Written(s)) => if s == [] then None else Some(Written(s))
    case Present(At(seconds)) => Some(At(seconds))
    case _ => None
  }

  /** A due date the analyzer writes with `strftime` for a valid instant with a four-digit year
      passes the `strptime` check and is stored as written; this is why a computed due date
      (`At`) is accepted without a check of its own. */
  lemma StampedDueAccepted(year: nat, month: nat, day: nat, hour: nat, minute: nat, second: nat)
    requires year < 10000 && ValidInstant(year, month, day, hour, minute, second)
    ensures var s := Stamp(year, month, day, hour, minute, second);
      DueAccepted(Present(Written(s))) && StoredDue(Present(Written(s))) == Some(Written(s))
  {
    StampAccepted(year, month, day, hour, minute, second);
  }

  /** The loop body does not raise on this draft: it has a title key and a readable due date. */
  predicate Insertable(d: Draft)
  {
    !d.title.Absent? && DueAccepted(d.dueDate)
  }

  /** The row added for a draft: a null priority, like a missing one, leaves the column default 1. */
  function NewTodo(d: Draft, uid: nat, id: nat): Todo
  {
    Todo(id, d.title.Get(), d.description.Get(), StoredDue(d.dueDate), false,
         if d.priority.Present? then d.priority.value else 1, uid)
  }

  function NewTodos(ds: seq<Draft>, uid: nat, first: nat): seq<Todo>
  {
    seq(|ds|, i requires 0 <= i < |ds| => NewTodo(ds[i], uid, first + i))
  }

  function CreatedMessage(count: nat): string
  {
    "Created " + NatToString(count) + (if count == 1 then " todo" else " todos") + " successfully"
  }

  /** `create`: add one row per draft, all of them or none. */
  function CreateEffect(todos: seq<Todo>, analysis: Analysis, input: string, user: User): Effect
    requires IdsAscending(todos)
  {
    match CreateBatch(analysis, input)
    case Raised(_) => Effect(todos, Failed(Some(CreateFailed)))
    case Ok(ds) =>
      if forall i :: 0 <= i < |ds| ==> Insertable(ds[i]) then
        var ts := todos + NewTodos(ds, user.id, NextId(todos));
        Effect(ts, TodosResponse(ts, user, CreatedMessage(|ds|)))
      else Effect(todos, Failed(Some(CreateFailed)))
  }

  /** `filter(Todo.title == title).first()` over every user's rows, from `i` on; a null title
      selects a row whose title is null. */
  function FirstTitled(todos: seq<Todo>, title: Option<string>, i: nat): (r: Option<nat>)
    requires i <= |todos|
    ensures r.Some? ==> i <= r.value < |todos| && todos[r.value].title == title
    ensures r.None? ==> forall j :: i <= j < |todos| ==> todos[j].title != title
    decreases |todos| - i
  {
    if i == |todos| then None
    else if todos[i].title == title then Some(i)
    else FirstTitled(todos, title, i + 1)
  }

  /** The update loop does not raise: no category (a string cannot be assigned to the
      relationship) and, if a due date is given, one `fromisoformat` reads. */
  predicate PatchAccepted(d: Draft)
  {
    !d.category.Present? &&
    match d.dueDate
    case Present(Written(s)) => s != [] && IsDateTimeText(s)
    case _ => true
  }

  /** Every key of `todo_info` holding a value overwrites that column. */
  function Patched(t: Todo, d: Draft): Todo
  {
    t.(title := if d.title.Present? then Some(d.title.value) else t.title,
       description := if d.description.Present? then Some(d.description.value) else t.description,
       dueDate := if d.dueDate.Present? then Some(d.dueDate.value) else t.dueDate,
       priority := if d.priority.Present? then d.priority.value else t.priority)
  }

  /** `update` as dispatched: overwrite the fields of the first row, of any user, whose title is
      exactly `todo_info`'s. */
  function PatchEffect(todos: seq<Todo>, analysis: Analysis, user: User): Effect
  {
    match analysis.todoInfo
    case Absent => Effect(todos, ServerError)
    case Null => Effect(todos, ServerError)
    case Present(d) =>
      if d.title.Absent? then Effect(todos, ServerError)
      else
        match FirstTitled(todos, d.title.Get(), 0)
        case None => Effect(todos, HttpError(404, "Todo not found"))
        case Some(i) =>
          if !PatchAccepted(d) then Effect(todos, ServerError)
          else
            var ts := todos[i := Patched(todos[i], d)];
            Effect(ts, TodosResponse(ts, user, "Todo updated successfully"))
  }

  /** Another of the user's rows, with a different id, already has this title. */
  predicate TitleTaken(todos: seq<Todo>, title: Option<string>, uid: nat, id: nat)
  {
    exists j :: 0 <= j < |todos| && todos[j].owner == uid && todos[j].id != id && todos[j].title == title
  }

  /** The rename branch: the first draft names the task, the second its new title. */
  function RenameEffect(todos: seq<Todo>, analysis: Analysis, user: User): Effect
  {
    var ds := if analysis.todos.Present? then analysis.todos.value else [];
    if |ds| < 2 then Effect(todos, HttpError(400, "Missing update information"))
    else if ds[0].title.Absent? || ds[1].title.Absent? then Effect(todos, ServerError)
    else
      var oldTitle := ds[0].title.Get();
      var newTitle := ds[1].title.Get();
      match Matching(todos, oldTitle, user.id)
      case Crashed => Effect(todos, ServerError)
      case NotFound => Effect(todos, HttpError(404, NotFoundDetail(oldTitle)))
      case Found(i) =>
        if TitleTaken(todos, newTitle, user.id, todos[i].id) then
          Effect(todos, HttpError(400, "A todo with this title already exists"))
        else
          var ts := todos[i := todos[i].(title := newTitle)];
          Effect(ts, TodosResponse(ts, user, "Todo updated successfully"))
  }

  // ---------------------------------------------------------------------------
  // process_input

  const ProcessFailed := "Failed to process your request. Please try again."
  const UnknownError := "Unknown error occurred"

  /** `not analysis`: the record has none of the keys. */
  predicate EmptyRecord(a: Analysis)
  {
    a.action.Absent? && a.uiAction.Absent? && a.todos.Absent? && a.todoInfo.Absent? &&
    a.error.Absent? && a.details.Absent?
  }

  /** `analysis.get("error", "Unknown error occurred")` */
  function ErrorMessage(error: Field<string>): Option<string>
  {
    match error
    case Absent => Some(UnknownError)
    case Null => None
    case Present(s) => Some(s)
  }

  /** A record without an `action` is read as a `create` of the raw input. */
  function WithDefaultAction(a: Analysis, input: string): Analysis
  {
    if a.action.Absent? then
      a.(action := Present("create"), todoInfo := Present(Draft(Present(input), Null, Null, Present(1), Null)))
    else a
  }

  function Dispatch(todos: seq<Todo>, a: Analysis, input: string, user: User): Effect
    requires IdsAscending(todos)
  {
    if a.action == Present("create") then CreateEffect(todos, a, input, user)
    else if a.action == Present("mark_complete") || a.action == Present("mark_incomplete") then
      MarkEffect(todos, a, input, user, a.action == Present("mark_complete"))
    else if a.action == Present("update") then PatchEffect(todos, a, user)
    else if a.action == Present("query") || a.action == Present("list_all") then
      Effect(todos, ListTodos(todos, Some(user)))
    else if a.action == Present("delete") then DeleteEffect(todos, a, input, user)
    else Effect(todos, HttpError(400, "Invalid action"))
  }

  /** `process_input` on an analysis, for a signed-in user. */
  function ProcessEffect(todos: seq<Todo>, analysis: Analysis, input: string, user: User): Effect
    requires IdsAscending(todos)
  {
    if EmptyRecord(analysis) then Effect(todos, Failed(Some(ProcessFailed)))
    else if analysis.action == Present("error") then Effect(todos, Failed(ErrorMessage(analysis.error)))
    else Dispatch(todos, WithDefaultAction(analysis, input), input, user)
  }

  // ---------------------------------------------------------------------------
  // What the actions promise

  /** Rows added by a batch carry fresh ids, above every id already there, in ascending order. */
  lemma AppendKeepsIds(todos: seq<Todo>, ds: seq<Draft>, uid: nat)
    requires IdsAscending(todos)
    ensures IdsAscending(todos + NewTodos(ds, uid, NextId(todos)))
  {
    var added := NewTodos(ds, uid, NextId(todos));
    var ts := todos + added;
    forall i, j | 0 <= i < j < |ts|
      ensures ts[i].id < ts[j].id
    {
      if j >= |todos| {
        assert ts[j] == added[j - |todos|];
      }
      if i >= |todos| {
        assert ts[i] == added[i - |todos|];
      }
    }
  }

  lemma RemoveKeepsIds(todos: seq<Todo>, k: nat)
    requires IdsAscending(todos) && k < |todos|
    ensures IdsAscending(todos[..k] + todos[k + 1..])
  {
    var ts := todos[..k] + todos[k + 1..];
    forall i, j | 0 <= i < j < |ts|
      ensures ts[i].id < ts[j].id
    {
      var i' := if i < k then i else i + 1;
      var j' := if j < k then j else j + 1;
      assert ts[i] == todos[i'] && ts[j] == todos[j'];
    }
    forall i | 0 <= i < |ts|
      ensures ts[i].id >= 1
    {
      assert ts[i] == todos[if i < k then i else i + 1];
    }
  }

  /** Every request leaves the row ids positive and strictly increasing. */
  lemma ProcessKeepsIds(todos: seq<Todo>, analysis: Analysis, input: string, user: User)
    requires IdsAscending(todos)
    ensures IdsAscending(ProcessEffect(todos, analysis, input, user).store)
  {
    if !EmptyRecord(analysis) && analysis.action != Present("error") {
      DispatchKeepsIds(todos, WithDefaultAction(analysis, input), input, user);
    }
  }

  lemma DispatchKeepsIds(todos: seq<Todo>, a: Analysis, input: string, user: User)
    requires IdsAscending(todos)
    ensures IdsAscending(Dispatch(todos, a, input, user).store)
  {
    if a.action == Present("create") {
      CreateKeepsIds(todos, a, input, user);
    } else if a.action == Present("mark_complete") || a.action == Present("mark_incomplete") {
      MarkKeepsIds(todos, a, input, user, a.action == Present("mark_complete"));
    } else if a.action == Present("update") {
      PatchKeepsIds(todos, a, user);
    } else if a.action == Present("delete") {
      DeleteKeepsIds(todos, a, input, user);
    }
  }

  lemma CreateKeepsIds(todos: seq<Todo>, a: Analysis, input: string, user: User)
    requires IdsAscending(todos)
    ensures IdsAscending(CreateEffect(todos, a, input, user).store)
  {
    var b := CreateBatch(a, input);
    if b.Ok? {
      AppendKeepsIds(todos, b.value, user.id);
    }
  }

  lemma MarkKeepsIds(todos: seq<Todo>, a: Analysis, input: string, user: User, complete: bool)
    requires IdsAscending(todos)
    ensures IdsAscending(MarkEffect(todos, a, input, user, complete).store)
  {
    MarkChangesOnlyMatch(todos, a, input, user, complete);
    SameIdsKeepAscending(todos, MarkEffect(todos, a, input, user, complete).store);
  }

  lemma PatchKeepsIds(todos: seq<Todo>, a: Analysis, user: User)
    requires IdsAscending(todos)
    ensures IdsAscending(PatchEffect(todos, a, user).store)
  {
    PatchRules(todos, a, user);
    SameIdsKeepAscending(todos, PatchEffect(todos, a, user).store);
  }

  lemma DeleteKeepsIds(todos: seq<Todo>, a: Analysis, input: string, user: User)
    requires IdsAscending(todos)
    ensures IdsAscending(DeleteEffect(todos, a, input, user).store)
  {
    var s := SearchTitle(a, input, DeleteWords);
    if s.Ok? && Matching(todos, s.value, user.id).Found? {
      RemoveKeepsIds(todos, Matching(todos, s.value, user.id).index);
    }
  }

  lemma RenameKeepsIds(todos: seq<Todo>, a: Analysis, user: User)
    requires IdsAscending(todos)
    ensures IdsAscending(RenameEffect(todos, a, user).store)
  {
    RenameRules(todos, a, user);
    SameIdsKeepAscending(todos, RenameEffect(todos, a, user).store);
  }

  /** A table whose rows carry the ids of an ascending table, position by position, is ascending. */
  lemma SameIdsKeepAscending(todos: seq<Todo>, ts: seq<Todo>)
    requires IdsAscending(todos)
    requires |ts| == |todos| && forall i :: 0 <= i < |ts| ==> ts[i].id == todos[i].id
    ensures IdsAscending(ts)
  {
  }

  /** `create` is all or nothing: a failure answers the create error and leaves the table as it
      was; a success keeps every row, appends one row per draft, and its message counts them. */
  lemma CreateAllOrNothing(todos: seq<Todo>, analysis: Analysis, input: string, user: User)
    requires IdsAscending(todos)
    ensures var e := CreateEffect(todos, analysis, input, user);
      (e.response.Failed? <==> e.store == todos) &&
      (e.response.Failed? ==> e.response == Failed(Some(CreateFailed))) &&
      (!e.response.Failed? ==>
        CreateBatch(analysis, input).Ok? &&
        |e.store| == |todos| + |CreateBatch(analysis, input).value| && e.store[..|todos|] == todos &&
        e.response == TodosResponse(e.store, user, CreatedMessage(|e.store| - |todos|)))
  {
    var e := CreateEffect(todos, analysis, input, user);
    if !e.response.Failed? {
      var ds := CreateBatch(analysis, input).value;
      assert e.store == todos + NewTodos(ds, user.id, NextId(todos));
      assert e.store[..|todos|] == todos;
    }
  }

  /** The rows a successful `create` appends: in draft order, each belongs to the user, is not
      completed, carries its draft's title, description and stored due date and its priority (1
      when there is none), and has an id above every earlier id; the ids stay ascending. */
  lemma CreateNewRows(todos: seq<Todo>, analysis: Analysis, input: string, user: User)
    requires IdsAscending(todos)
    requires !CreateEffect(todos, analysis, input, user).response.Failed?
    ensures var e := CreateEffect(todos, analysis, input, user);
      CreateBatch(analysis, input).Ok? &&
      var ds := CreateBatch(analysis, input).value;
      |e.store| == |todos| + |ds| && IdsAscending(e.store) &&
      forall k :: 0 <= k < |ds| ==>
        var row := e.store[|todos| + k];
        row.owner == user.id && !row.completed && row.title == ds[k].title.Get() &&
        row.description == ds[k].description.Get() && row.dueDate == StoredDue(ds[k].dueDate) &&
        row.priority == (if ds[k].priority.Present? then ds[k].priority.value else 1) &&
        forall j :: 0 <= j < |todos| ==> todos[j].id < row.id
  {
    var ds := CreateBatch(analysis, input).value;
    AppendKeepsIds(todos, ds, user.id);
    var e := CreateEffect(todos, analysis, input, user);
    var added := NewTodos(ds, user.id, NextId(todos));
    assert e.store == todos + added;
    forall k | 0 <= k < |ds|
      ensures e.store[|todos| + k] == NewTodo(ds[k], user.id, NextId(todos) + k)
    {
      assert e.store[|todos| + k] == added[k];
    }
  }

  /** The create round trip for an item naming a duration: a draft due `n` hours after `now`
      (see `ShapedDraftDueIn`) is stored due at that instant, with the description that says
      so. */
  lemma CreateStoresDueIn(todos: seq<Todo>, analysis: Analysis, input: string, user: User, k: nat,
                          now: int, n: nat)
    requires IdsAscending(todos)
    requires !CreateEffect(todos, analysis, input, user).response.Failed?
    requires CreateBatch(analysis, input).Ok? && k < |CreateBatch(analysis, input).value|
    requires DueIn(CreateBatch(analysis, input).value[k], now, n)
    ensures var row := CreateEffect(todos, analysis, input, user).store[|todos| + k];
      var d := CreateBatch(analysis, input).value[k];
      row.dueDate == Some(At(now + n * SecondsPerHour)) &&
      row.description == Some(Capitalize(d.title.value) + " (Due in " + NatToString(n) + " hours)")
  {
    CreateNewRows(todos, analysis, input, user);
  }

  /** A draft whose due date is text that does not have the layout `YYYY-MM-DD HH:MM:SS` makes the
      whole batch fail: no row is added. */
  lemma CreateRejectsUnreadableDue(todos: seq<Todo>, analysis: Analysis, input: string, user: User, i: nat)
    requires IdsAscending(todos)
    requires CreateBatch(analysis, input).Ok? && i < |CreateBatch(analysis, input).value|
    requires var due := CreateBatch(analysis, input).value[i].dueDate;
      due.Present? && due.value.Written? && due.value.text != [] && !IsDateTimeText(due.value.text)
    ensures CreateEffect(todos, analysis, input, user) == Effect(todos, Failed(Some(CreateFailed)))
  {
    assert !Insertable(CreateBatch(analysis, input).value[i]);
  }

  /** With no drafts and no `todo_info`, `create` adds the raw input as one task: the input is
      both title and description, priority 1, no due date. */
  lemma CreateFromRawInput(todos: seq<Todo>, analysis: Analysis, input: string, user: User)
    requires IdsAscending(todos)
    requires !(analysis.todos.Present? && analysis.todos.value != []) && analysis.todoInfo.Absent?
    ensures CreateEffect(todos, analysis, input, user) ==
      var ts := todos + [Todo(NextId(todos), Some(input), Some(input), None, false, 1, user.id)];
      Effect(ts, TodosResponse(ts, user, "Created 1 todo successfully"))
  {
    var ds := CreateBatch(analysis, input).value;
    assert NewTodos(ds, user.id, NextId(todos)) ==
      [Todo(NextId(todos), Some(input), Some(input), None, false, 1, user.id)];
    assert NatToString(1) == "1";
    assert CreatedMessage(|ds|) == "Created 1 todo successfully";
  }

  /** A status change answers a listing exactly when the search title resolves and the matcher
      finds a row; it then sets the flag of that row, one of the user's own, and nothing else,
      and answers the listing of the new table. A title the matcher does not find answers 404
      with that title, a title that cannot be resolved or a matcher that raises answers 500, and
      every failure leaves the table as it was. */
  lemma MarkChangesOnlyMatch(todos: seq<Todo>, analysis: Analysis, input: string, user: User, complete: bool)
    ensures var e := MarkEffect(todos, analysis, input, user, complete);
      var st := SearchTitle(analysis, input, MarkWords);
      |e.store| == |todos| &&
      (e.response.Listing? <==> st.Ok? && Matching(todos, st.value, user.id).Found?) &&
      (e.response.Listing? ==>
        var k := Matching(todos, st.value, user.id).index;
        todos[k].owner == user.id &&
        e.store == todos[k := todos[k].(completed := complete)] &&
        e.response == TodosResponse(e.store, user, CompletionMessage(complete))) &&
      (!e.response.Listing? ==> e.store == todos) &&
      (st.Ok? && Matching(todos, st.value, user.id).NotFound? ==>
        e.response == HttpError(404, "Todo not found: " + TitleText(st.value))) &&
      (st.Raised? || Matching(todos, st.value, user.id).Crashed? ==> e.response == ServerError)
  {
  }

  /** A deletion answers a listing exactly when the search title resolves and the matcher finds a
      row; it then removes that row, one of the user's own, keeps the others in order and
      answers the listing of the new table. A title the matcher does not find answers 404 with
      that title, and every failure leaves the table as it was. */
  lemma DeleteRemovesOnlyMatch(todos: seq<Todo>, analysis: Analysis, input: string, user: User)
    ensures var e := DeleteEffect(todos, analysis, input, user);
      var st := SearchTitle(analysis, input, DeleteWords);
      (e.response.Listing? <==> st.Ok? && Matching(todos, st.value, user.id).Found?) &&
      (e.response.Listing? ==>
        var k := Matching(todos, st.value, user.id).index;
        todos[k].owner == user.id &&
        e.store == todos[..k] + todos[k + 1..] &&
        multiset(e.store) + multiset{todos[k]} == multiset(todos) &&
        e.response == TodosResponse(e.store, user, "Todo deleted successfully")) &&
      (!e.response.Listing? ==> e.store == todos) &&
      (st.Ok? && Matching(todos, st.value, user.id).NotFound? ==>
        e.response == HttpError(404, "Todo not found: " + TitleText(st.value))) &&
      (st.Raised? || Matching(todos, st.value, user.id).Crashed? ==> e.response == ServerError)
  {
    var e := DeleteEffect(todos, analysis, input, user);
    if e.response.Listing? {
      var k := Matching(todos, SearchTitle(analysis, input, DeleteWords).value, user.id).index;
      assert todos == todos[..k] + [todos[k]] + todos[k + 1..];
    }
  }

  /** Renaming: fewer than two drafts answers 400, and a draft without a title answers 500. With
      both titles given, the request succeeds exactly when the matcher finds a row and no other
      row of the user already holds the new title; a matcher that raises answers 500, one that
      finds nothing answers 404, and a taken title answers 400 and changes nothing. A success
      renames the matched row, one of the user's own, changes nothing else, answers the listing of
      the new table, and afterwards no other row of the user holds that title. */
  lemma RenameRules(todos: seq<Todo>, analysis: Analysis, user: User)
    requires IdsAscending(todos)
    ensures var e := RenameEffect(todos, analysis, user);
      var ds := if analysis.todos.Present? then analysis.todos.value else [];
      (|ds| < 2 ==> e == Effect(todos, HttpError(400, "Missing update information"))) &&
      (!e.response.Listing? ==> e.store == todos) &&
      (|ds| >= 2 && (ds[0].title.Absent? || ds[1].title.Absent?) ==> e == Effect(todos, ServerError)) &&
      (|ds| >= 2 && !ds[0].title.Absent? && !ds[1].title.Absent? ==>
        var m := Matching(todos, ds[0].title.Get(), user.id);
        (e.response.Listing? <==>
          m.Found? && !TitleTaken(todos, ds[1].title.Get(), user.id, todos[m.index].id)) &&
        (m.Crashed? ==> e == Effect(todos, ServerError)) &&
        (m.NotFound? ==> e.response == HttpError(404, NotFoundDetail(ds[0].title.Get()))) &&
        (m.Found? && TitleTaken(todos, ds[1].title.Get(), user.id, todos[m.index].id) ==>
          e == Effect(todos, HttpError(400, "A todo with this title already exists")))) &&
      (e.response.Listing? ==>
        |ds| >= 2 && !ds[0].title.Absent? && !ds[1].title.Absent? &&
        var m := Matching(todos, ds[0].title.Get(), user.id);
        m.Found? && todos[m.index].owner == user.id &&
        e.store == todos[m.index := todos[m.index].(title := ds[1].title.Get())] &&
        e.response == TodosResponse(e.store, user, "Todo updated successfully") &&
        forall j :: 0 <= j < |todos| && j != m.index && todos[j].owner == user.id ==>
          e.store[j].title != e.store[m.index].title)
  {
    var e := RenameEffect(todos, analysis, user);
    if e.response.Listing? {
      var ds := analysis.todos.value;
      var k := Matching(todos, ds[0].title.Get(), user.id).index;
      assert !TitleTaken(todos, ds[1].title.Get(), user.id, todos[k].id);
      forall j | 0 <= j < |todos| && j != k && todos[j].owner == user.id
        ensures e.store[j].title != e.store[k].title
      {
        assert todos[j].id != todos[k].id;
      }
    }
  }

  /** Whatever a request does, a request that does not answer with a listing leaves the table as
      it was; a query answers the listing and changes nothing. */
  lemma ProcessFailuresKeepStore(todos: seq<Todo>, analysis: Analysis, input: string, user: User)
    requires IdsAscending(todos)
    ensures var e := ProcessEffect(todos, analysis, input, user);
      (!e.response.Listing? ==> e.store == todos) &&
      (analysis.action == Present("query") || analysis.action == Present("list_all") ==>
        e == Effect(todos, ListTodos(todos, Some(user))))
  {
    if !EmptyRecord(analysis) && analysis.action != Present("error") {
      var a := WithDefaultAction(analysis, input);
      if a.action == Present("create") {
        CreateAllOrNothing(todos, a, input, user);
      } else if a.action == Present("mark_complete") || a.action == Present("mark_incomplete") {
        MarkChangesOnlyMatch(todos, a, input, user, a.action == Present("mark_complete"));
      } else if a.action == Present("delete") {
        DeleteRemovesOnlyMatch(todos, a, input, user);
      }
    }
  }

  /** The rows of users other than `uid` in `after` are those in `before`. */
  predicate OthersKept(before: seq<Todo>, after: seq<Todo>, uid: nat)
  {
    (forall t :: t in before && t.owner != uid ==> t in after) &&
    (forall t :: t in after && t.owner != uid ==> t in before)
  }

  lemma CreateKeepsOthers(todos: seq<Todo>, analysis: Analysis, input: string, user: User)
    requires IdsAscending(todos)
    ensures OthersKept(todos, CreateEffect(todos, analysis, input, user).store, user.id)
  {
    var e := CreateEffect(todos, analysis, input, user);
    if !e.response.Failed? {
      var ds := CreateBatch(analysis, input).value;
      var added := NewTodos(ds, user.id, NextId(todos));
      assert e.store == todos + added;
      forall t | t in added
        ensures t.owner == user.id
      {
        var k :| 0 <= k < |added| && added[k] == t;
      }
    }
  }

  lemma MarkKeepsOthers(todos: seq<Todo>, analysis: Analysis, input: string, user: User, complete: bool)
    ensures OthersKept(todos, MarkEffect(todos, analysis, input, user, complete).store, user.id)
  {
    var e := MarkEffect(todos, analysis, input, user, complete);
    if e.response.Listing? {
      var k := Matching(todos, SearchTitle(analysis, input, MarkWords).value, user.id).index;
      ReplaceKeepsOthers(todos, k, todos[k].(completed := complete), user.id);
    }
  }

  lemma DeleteKeepsOthers(todos: seq<Todo>, analysis: Analysis, input: string, user: User)
    ensures OthersKept(todos, DeleteEffect(todos, analysis, input, user).store, user.id)
  {
    var e := DeleteEffect(todos, analysis, input, user);
    if e.response.Listing? {
      var k := Matching(todos, SearchTitle(analysis, input, DeleteWords).value, user.id).index;
      RemoveKeepsOthers(todos, k, user.id);
    }
  }

  /** Replacing a row of user `uid` by another row of theirs keeps the other users' rows. */
  lemma ReplaceKeepsOthers(todos: seq<Todo>, k: nat, t: Todo, uid: nat)
    requires k < |todos| && todos[k].owner == uid && t.owner == uid
    ensures OthersKept(todos, todos[k := t], uid)
  {
    var ts := todos[k := t];
    forall x | x in todos && x.owner != uid
      ensures x in ts
    {
      var j :| 0 <= j < |todos| && todos[j] == x;
      assert ts[j] == x;
    }
    forall x | x in ts && x.owner != uid
      ensures x in todos
    {
      var j :| 0 <= j < |ts| && ts[j] == x;
      assert todos[j] == x;
    }
  }

  /** Removing a row of user `uid` keeps the other users' rows. */
  lemma RemoveKeepsOthers(todos: seq<Todo>, k: nat, uid: nat)
    requires k < |todos| && todos[k].owner == uid
    ensures OthersKept(todos, todos[..k] + todos[k + 1..], uid)
  {
    var ts := todos[..k] + todos[k + 1..];
    forall x | x in todos && x.owner != uid
      ensures x in ts
    {
      var j :| 0 <= j < |todos| && todos[j] == x;
      assert j != k;
      assert ts[if j < k then j else j - 1] == x;
    }
    forall x | x in ts && x.owner != uid
      ensures x in todos
    {
      var j :| 0 <= j < |ts| && ts[j] == x;
      assert todos[if j < k then j else j + 1] == x;
    }
  }

  /** Every action but `update` leaves the other users' rows alone: each of them is still there,
      and every row of another user afterwards was there before. */
  lemma ProcessKeepsOtherUsersRows(todos: seq<Todo>, analysis: Analysis, input: string, user: User)
    requires IdsAscending(todos)
    requires analysis.action != Present("update")
    ensures OthersKept(todos, ProcessEffect(todos, analysis, input, user).store, user.id)
  {
    if !EmptyRecord(analysis) && analysis.action != Present("error") {
      var a := WithDefaultAction(analysis, input);
      if a.action == Present("create") {
        CreateKeepsOthers(todos, a, input, user);
      } else if a.action == Present("mark_complete") || a.action == Present("mark_incomplete") {
        MarkKeepsOthers(todos, a, input, user, a.action == Present("mark_complete"));
      } else if a.action == Present("delete") {
        DeleteKeepsOthers(todos, a, input, user);
      }
    }
  }

  /** The `update` lookup ignores the owner: a user's update rewrites another user's task. */
  lemma UpdateReachesOtherUsersRows()
    ensures var todos := [Todo(1, Some("Gym"), None, None, false, 1, 2)];
      var info := Draft(Present("Gym"), Absent, Absent, Present(3), Absent);
      var analysis := Analysis(Present("update"), Absent, Present([]), Present(info), Absent, Absent);
      var e := ProcessEffect(todos, analysis, "raise gym priority", User(1, false));
      e.store == [Todo(1, Some("Gym"), None, None, false, 3, 2)] && e.response.Listing?
  {
  }

  /** The rename branch is unreachable: every `update` is served by the field update, so a
      request without `todo_info`, as a rename request is, fails with status 500. */
  lemma RenameUnreachable(todos: seq<Todo>, analysis: Analysis, input: string, user: User)
    requires IdsAscending(todos) && analysis.action == Present("update")
    ensures ProcessEffect(todos, analysis, input, user) == PatchEffect(todos, analysis, user)
    ensures analysis.todoInfo.Absent? ==> ProcessEffect(todos, analysis, input, user) == Effect(todos, ServerError)
  {
  }

  /** A rename request the rename branch would serve, failing in `process_input`. */
  lemma RenameUnreachableExample()
    ensures var todos := [Todo(1, Some("Gym"), None, None, false, 1, 1)];
      var analysis := Analysis(Present("update"), Absent,
        Present([Draft(Present("Gym"), Absent, Absent, Absent, Absent),
                 Draft(Present("Swim"), Absent, Absent, Absent, Absent)]), Absent, Absent, Absent);
      var user := User(1, false);
      RenameEffect(todos, analysis, user).store == [Todo(1, Some("Swim"), None, None, false, 1, 1)] &&
      ProcessEffect(todos, analysis, "rename gym to swim", user) == Effect(todos, ServerError)
  {
    var todos := [Todo(1, Some("Gym"), None, None, false, 1, 1)];
    assert OccursAt(Lower("Gym"), Lower("Gym"), 0);
    assert FirstLike(todos, "Gym", 1, 0) == Some(0);
  }

  /** The field update: a failure leaves the table as it was, and a title no row holds answers
      404; a success rewrites only the first row, of any user, whose title is exactly the one
      given, with the given values, and keeps its id, owner and completion flag. */
  lemma PatchRules(todos: seq<Todo>, analysis: Analysis, user: User)
    ensures var e := PatchEffect(todos, analysis, user);
      (!e.response.Listing? ==> e.store == todos) &&
      (e.response.Listing? ==>
        analysis.todoInfo.Present? && PatchAccepted(analysis.todoInfo.value) &&
        var d := analysis.todoInfo.value;
        exists k :: 0 <= k < |todos| && todos[k].title == d.title.Get() &&
          (forall j :: 0 <= j < k ==> todos[j].title != d.title.Get()) &&
          e.store == todos[k := Patched(todos[k], d)] &&
          e.store[k].id == todos[k].id && e.store[k].owner == todos[k].owner &&
          e.store[k].completed == todos[k].completed) &&
      (analysis.todoInfo.Present? && !analysis.todoInfo.value.title.Absent? &&
       (forall j :: 0 <= j < |todos| ==> todos[j].title != analysis.todoInfo.value.title.Get()) ==>
        e.response == HttpError(404, "Todo not found"))
  {
    var e := PatchEffect(todos, analysis, user);
    if e.response.Listing? {
      var d := analysis.todoInfo.value;
      var k := FirstTitled(todos, d.title.Get(), 0).value;
      assert e.store == todos[k := Patched(todos[k], d)];
      assert forall j :: 0 <= j < k ==> todos[j].title != d.title.Get() by {
        FirstTitledIsFirst(todos, d.title.Get(), 0);
      }
    }
  }

  lemma {:induction false} FirstTitledIsFirst(todos: seq<Todo>, title: Option<string>, i: nat)
    requires i <= |todos|
    ensures FirstTitled(todos, title, i).Some? ==>
      forall j :: i <= j < FirstTitled(todos, title, i).value ==> todos[j].title != title
    decreases |todos| - i
  {
    if i < |todos| && todos[i].title != title {
      FirstTitledIsFirst(todos, title, i + 1);
    }
  }

  /** The actions the dispatcher knows. */
  predicate KnownAction(action: Field<string>)
  {
    action.Present? &&
    action.value in {"error", "create", "mark_complete", "mark_incomplete", "update", "query", "list_all", "delete"}
  }

  /** An error record is passed on as a failure carrying its message; the table is unchanged. */
  lemma ErrorPassedOn(todos: seq<Todo>, analysis: Analysis, input: string, user: User)
    requires IdsAscending(todos)
    requires analysis.action == Present("error")
    ensures ProcessEffect(todos, analysis, input, user) == Effect(todos, Failed(ErrorMessage(analysis.error)))
  {
  }

  /** An action the dispatcher does not know, a null one included, answers 400 and changes
      nothing. */
  lemma UnknownActionRejected(todos: seq<Todo>, analysis: Analysis, input: string, user: User)
    requires IdsAscending(todos)
    requires !analysis.action.Absent? && !KnownAction(analysis.action)
    ensures ProcessEffect(todos, analysis, input, user) == Effect(todos, HttpError(400, "Invalid action"))
  {
  }

  /** A record without an `action` and without drafts creates one task from the raw input: the
      input is its title, with no description and priority 1. */
  lemma MissingActionCreatesInput(todos: seq<Todo>, analysis: Analysis, input: string, user: User)
    requires IdsAscending(todos)
    requires analysis.action.Absent? && !EmptyRecord(analysis)
    requires !(analysis.todos.Present? && analysis.todos.value != [])
    ensures ProcessEffect(todos, analysis, input, user) ==
      var ts := todos + [Todo(NextId(todos), Some(input), None, None, false, 1, user.id)];
      Effect(ts, TodosResponse(ts, user, "Created 1 todo successfully"))
  {
    var a := WithDefaultAction(analysis, input);
    var ds := CreateBatch(a, input).value;
    assert ds == [Draft(Present(input), Null, Null, Present(1), Absent)];
    assert NewTodos(ds, user.id, NextId(todos)) ==
      [Todo(NextId(todos), Some(input), None, None, false, 1, user.id)];
    assert NatToString(1) == "1";
    assert CreatedMessage(|ds|) == "Created 1 todo successfully";
  }

  /** End to end: when the oracle's reply is not JSON and the keyword fallback finds a name and no
      delete or completion keyword, the request adds one task with that name, no description and
      priority 1. */
  lemma FallbackCreatesNamedTask(todos: seq<Todo>, input: string, reason: string, now: int, user: User)
    requires IdsAscending(todos)
    requires TaskName(input) != [] && Classify(input) == "create"
    ensures ProcessEffect(todos, AnalysisOf(input, NotJson(reason), now), input, user) ==
      var ts := todos + [Todo(NextId(todos), Some(TaskName(input)), None, None, false, 1, user.id)];
      Effect(ts, TodosResponse(ts, user, "Created 1 todo successfully"))
  {
    FallbackOutcome(input, reason, now);
    CreateOneDraft(todos, AnalysisOf(input, NotJson(reason), now), input, user, TaskName(input));
  }

  /** A `create` carrying exactly one draft with a title, nothing else and priority 1. */
  lemma CreateOneDraft(todos: seq<Todo>, a: Analysis, input: string, user: User, name: string)
    requires IdsAscending(todos)
    requires a.action == Present("create")
    requires a.todos == Present([Draft(Present(name), Null, Null, Present(1), Null)])
    ensures ProcessEffect(todos, a, input, user) ==
      var ts := todos + [Todo(NextId(todos), Some(name), None, None, false, 1, user.id)];
      Effect(ts, TodosResponse(ts, user, "Created 1 todo successfully"))
  {
    var d := Draft(Present(name), Null, Null, Present(1), Null);
    assert CreateBatch(a, input) == Ok([d]);
    assert NewTodos([d], user.id, NextId(todos)) ==
      [Todo(NextId(todos), Some(name), None, None, false, 1, user.id)];
    assert NatToString(1) == "1";
    assert CreatedMessage(1) == "Created 1 todo successfully";
  }

  /** The analyzer never hands over an empty record, so the "failed to process" branch is
      never taken. */
  lemma AnalysisNeverEmptyRecord(input: string, reply: OracleReply, now: int)
    ensures !EmptyRecord(AnalysisOf(input, reply, now))
  {
    AnalysisNeverEmpty(input, reply, now);
  }

  // ---------------------------------------------------------------------------
  // The store

  /** The `todos` table, changed in place by the request handler. */
  class TodoStore {
    var todos: seq<Todo>

    predicate Valid()
      reads this
    {
      IdsAscending(todos)
    }

    /** The table starts empty: the database file is recreated at start-up. */
    constructor()
      ensures todos == [] && Valid()
    {
      todos := [];
    }

    /** The `create` branch: the drafts are added to the session one by one, and a draft the loop
        cannot add rolls the whole batch back. */
    method Create(analysis: Analysis, input: string, user: User) returns (r: Response)
      requires Valid()
      modifies this
      ensures Effect(todos, r) == CreateEffect(old(todos), analysis, input, user)
      ensures Valid()
    {
      CreateKeepsIds(todos, analysis, input, user);
      var batch := CreateBatch(analysis, input);
      if batch.Raised? {
        return Failed(Some(CreateFailed));
      }
      var ds := batch.value;
      var next := NextId(todos);
      var pending: seq<Todo> := [];
      for i := 0 to |ds|
        invariant pending == NewTodos(ds[..i], user.id, next)
        invariant forall j :: 0 <= j < i ==> Insertable(ds[j])
      {
        var d := ds[i];
        if d.title.Absent? || !DueAccepted(d.dueDate) {
          return Failed(Some(CreateFailed));
        }
        assert NewTodos(ds[..i + 1], user.id, next) == pending + [NewTodo(d, user.id, next + i)];
        pending := pending + [NewTodo(d, user.id, next + i)];
      }
      assert ds[..|ds|] == ds;
      todos := todos + pending;
      r := TodosResponse(todos, user, CreatedMessage(|ds|));
    }

    /** The `mark_complete` / `mark_incomplete` branch. */
    method SetCompletion(analysis: Analysis, input: string, user: User, complete: bool) returns (r: Response)
      requires Valid()
      modifies this
      ensures Effect(todos, r) == MarkEffect(old(todos), analysis, input, user, complete)
      ensures Valid()
    {
      MarkKeepsIds(todos, analysis, input, user, complete);
      var title := ResolveTitle(analysis, input, MarkWords);
      if title.Raised? {
        return ServerError;
      }
      var m := FindMatching(todos, title.value, user.id);
      match m {
        case Crashed =>
          return ServerError;
        case NotFound =>
          return HttpError(404, NotFoundDetail(title.value));
        case Found(i) =>
          todos := todos[i := todos[i].(completed := complete)];
          r := TodosResponse(todos, user, CompletionMessage(complete));
      }
    }

    /** The `delete` branch. */
    method Delete(analysis: Analysis, input: string, user: User) returns (r: Response)
      requires Valid()
      modifies this
      ensures Effect(todos, r) == DeleteEffect(old(todos), analysis, input, user)
      ensures Valid()
    {
      DeleteKeepsIds(todos, analysis, input, user);
      var title := ResolveTitle(analysis, input, DeleteWords);
      if title.Raised? {
        return ServerError;
      }
      var m := FindMatching(todos, title.value, user.id);
      match m {
        case Crashed =>
          return ServerError;
        case NotFound =>
          return HttpError(404, NotFoundDetail(title.value));
        case Found(i) =>
          todos := todos[..i] + todos[i + 1..];
          r := TodosResponse(todos, user, "Todo deleted successfully");
      }
    }

    /** The `update` branch the dispatcher reaches: the row is looked up by exact title, then each
        key of `todo_info` holding a value is assigned; an assignment that raises discards them
        all, since nothing is committed. */
    method PatchByTitle(analysis: Analysis, user: User) returns (r: Response)
      requires Valid()
      modifies this
      ensures Effect(todos, r) == PatchEffect(old(todos), analysis, user)
      ensures Valid()
    {
      PatchKeepsIds(todos, analysis, user);
      if !analysis.todoInfo.Present? || analysis.todoInfo.value.title.Absent? {
        return ServerError;
      }
      var d := analysis.todoInfo.value;
      var found := FirstTitled(todos, d.title.Get(), 0);
      if found.None? {
        return HttpError(404, "Todo not found");
      }
      var row := todos[found.value];
      if d.title.Present? {
        row := row.(title := Some(d.title.value));
      }
      if d.description.Present? {
        row := row.(description := Some(d.description.value));
      }
      if d.dueDate.Present? {
        if d.dueDate.value.Written? && (d.dueDate.value.text == [] || !IsDateTimeText(d.dueDate.value.text)) {
          return ServerError;
        }
        row := row.(dueDate := Some(d.dueDate.value));
      }
      if d.priority.Present? {
        row := row.(priority := d.priority.value);
      }
      if d.category.Present? {
        return ServerError;
      }
      todos := todos[found.value := row];
      r := TodosResponse(todos, user, "Todo updated successfully");
    }

    /** The rename branch, which the dispatcher never reaches (`update` is taken by the branch
        before it). */
    method Rename(analysis: Analysis, user: User) returns (r: Response)
      requires Valid()
      modifies this
      ensures Effect(todos, r) == RenameEffect(old(todos), analysis, user)
      ensures Valid()
    {
      RenameKeepsIds(todos, analysis, user);
      var ds := if analysis.todos.Present? then analysis.todos.value else [];
      if |ds| < 2 {
        return HttpError(400, "Missing update information");
      }
      if ds[0].title.Absent? || ds[1].title.Absent? {
        return ServerError;
      }
      var oldTitle := ds[0].title.Get();
      var newTitle := ds[1].title.Get();
      var m := FindMatching(todos, oldTitle, user.id);
      match m {
        case Crashed =>
          return ServerError;
        case NotFound =>
          return HttpError(404, NotFoundDetail(oldTitle));
        case Found(i) =>
          if TitleTaken(todos, newTitle, user.id, todos[i].id) {
            return HttpError(400, "A todo with this title already exists");
          }
          todos := todos[i := todos[i].(title := newTitle)];
          r := TodosResponse(todos, user, "Todo updated successfully");
      }
    }

    /** `process_input` once the analysis is known. */
    method Process(analysis: Analysis, input: string, user: User) returns (r: Response)
      requires Valid()
      modifies this
      ensures Effect(todos, r) == ProcessEffect(old(todos), analysis, input, user)
      ensures Valid()
    {
      ProcessKeepsIds(todos, analysis, input, user);
      if EmptyRecord(analysis) {
        return Failed(Some(ProcessFailed));
      }
      if analysis.action == Present("error") {
        return Failed(ErrorMessage(analysis.error));
      }
      var a := analysis;
      if a.action.Absent? {
        a := a.(action := Present("create"), todoInfo := Present(Draft(Present(input), Null, Null, Present(1), Null)));
      }
      if a.action == Present("create") {
        r := Create(a, input, user);
      } else if a.action == Present("mark_complete") || a.action == Present("mark_incomplete") {
        r := SetCompletion(a, input, user, a.action == Present("mark_complete"));
      } else if a.action == Present("update") {
        r := PatchByTitle(a, user);
      } else if a.action == Present("query") || a.action == Present("list_all") {
        r := ListTodos(todos, Some(user));
      } else if a.action == Present("delete") {
        r := Delete(a, input, user);
      } else {
        r := HttpError(400, "Invalid action");
      }
    }

    /** The `/process` endpoint: analyse the input (the oracle's reply and the clock reading are
        given), then act on the analysis. */
    method HandleRequest(input: string, reply: OracleReply, now: int, user: User) returns (r: Response)
      requires Valid()
      modifies this
      ensures Effect(todos, r) == ProcessEffect(old(todos), AnalysisOf(input, reply, now), input, user)
      ensures Valid()
    {
      var analysis := Analyze(input, reply, now);
      r := Process(analysis, input, user);
    }
  }
}
