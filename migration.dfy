/** The divider's per-run state and the per-message state machine of `move_message`,
    as functions of the state before and the mailbox API's answers. */
module Migration {
  import opened Wrappers
  import opened Lists
  import opened Listing
  import opened Duplicates

  /** The marker label attached to every inserted message. */
  const LABEL_NAME: string := "gdivide"

  /** The query prefixes issued per correspondent, in this order. */
  const DIRECTIONS: seq<string> := ["to", "from"]

  /** A label of the home account. */
  datatype Label = Label(id: Id, name: string)

  /** The answers of the mailbox API and of the libraries the divider calls, fixed for a run:
      - `pages(account, query)`: the listing responses for a query (see `ListingEnds`);
      - `fetchWork(id)`: the source message, always fetched successfully;
      - `fetchHome(id)`: a home message, `None` when fetching it raises `HttpError`;
      - `labels`: the home account's labels, in listed order;
      - `createdLabelId`: the id the API gives the marker label on creation;
      - `insertReply(raw, threadId)`: the thread id the insert response carries;
      - `distance`: the simhash fingerprint distance of two texts;
      - `decodeHeader`: RFC 2047 header decoding, `None` when it fails;
      - `unescape`: HTML entity unescaping of the snippet;
      - `day(internalDate, n)`: the `%Y/%m/%d` day of the timestamp plus `n` days. */
  datatype Env = Env(
    pages: (Account, string) -> seq<Page>,
    fetchWork: Id -> Message,
    fetchHome: Id -> Option<Message>,
    labels: seq<Label>,
    createdLabelId: Id,
    insertReply: (string, Option<Id>) -> Id,
    distance: (string, string) -> nat,
    decodeHeader: string -> Option<string>,
    unescape: string -> string,
    day: (nat, nat) -> string)

  /** Every listing the API answers ends. */
  ghost predicate EnvValid(env: Env) {
    forall a, q :: ListingEnds(env.pages(a, q))
  }

  /** The divider's construction parameters. */
  datatype Settings = Settings(correspondents: seq<string>, limit: Option<int>, skipDeduplicate: bool, dryRun: bool)

  /** A mutating request sent to the mailbox API. */
  datatype Mutation =
    | CreateLabel(name: string, messageListVisibility: string, labelListVisibility: string)
    | Insert(raw: string, labelIds: seq<Id>, threadId: Option<Id>)
    | Trash(messageId: Id)

  /** The label creation request of `get_or_create_label`. */
  const CREATE_MARKER: Mutation := CreateLabel(LABEL_NAME, "hide", "labelHide")

  /** The divider's mutable state: the cached `_label`, `thread_map`, `stats_inserted`,
      `stats_trashed`, and the log of mutating requests sent so far. */
  datatype Session = Session(cached: Option<Label>, threadMap: map<Id, Id>, inserted: nat, trashed: nat, mutations: seq<Mutation>)

  const INITIAL: Session := Session(None, map[], 0, 0, [])

  // ---------------------------------------------------------------- label

  predicate IsMarker(l: Label) {
    l.name == LABEL_NAME
  }

  /** The first listed label named "gdivide". */
  function FindLabel(labels: seq<Label>): (r: Option<Label>)
    ensures r.None? <==> forall i | 0 <= i < |labels| :: !IsMarker(labels[i])
    ensures r.Some? ==> IsMarker(r.value) && r.value in labels
    ensures forall k | 0 <= k < |labels| && IsMarker(labels[k]) && (forall j | 0 <= j < k :: !IsMarker(labels[j])) ::
      r == Some(labels[k])
  {
    var k := FirstIndex(labels, IsMarker);
    if k < |labels| then Some(labels[k]) else None
  }

  /** The new cached label and whether the creation request was sent. */
  datatype LabelResolution = LabelResolution(resolved: Option<Label>, created: bool)

  /** `get_or_create_label`: the cached label if any; else the first listed marker
      label; else, outside dry run, a freshly created one; in dry run, nothing. */
  function ResolveLabel(cached: Option<Label>, labels: seq<Label>, createdId: Id, dryRun: bool): (r: LabelResolution)
    ensures cached.Some? ==> r == LabelResolution(cached, false)
    ensures cached.None? && FindLabel(labels).Some? ==> r == LabelResolution(FindLabel(labels), false)
    ensures r.created <==> cached.None? && FindLabel(labels).None? && !dryRun
    ensures r.created ==> r.resolved == Some(Label(createdId, LABEL_NAME))
    ensures dryRun && cached.None? ==> r.resolved == FindLabel(labels)
    ensures !dryRun ==> r.resolved.Some?
  {
    if cached.Some? then LabelResolution(cached, false)
    else match FindLabel(labels)
      case Some(l) => LabelResolution(Some(l), false)
      case None =>
        if dryRun then LabelResolution(None, false)
        else LabelResolution(Some(Label(createdId, LABEL_NAME)), true)
  }

  /** Resolving a second time returns the same label and sends no creation request:
      the label is created at most once per run. */
  lemma {:induction false} ResolveLabelIdempotent(cached: Option<Label>, labels: seq<Label>, createdId: Id, dryRun: bool)
    ensures var first := ResolveLabel(cached, labels, createdId, dryRun);
      ResolveLabel(first.resolved, labels, createdId, dryRun) == LabelResolution(first.resolved, false)
  {
    var first := ResolveLabel(cached, labels, createdId, dryRun);
    if first.resolved.None? {
      assert dryRun && FindLabel(labels).None?;
    }
  }

  // ------------------------------------------------------------ duplicates

  /** The search text `check_duplicate` sends to the home account. */
  function SearchQueryFor(m: Message, env: Env): string {
    DuplicateQuery(SubjectOf(m.headers, env.decodeHeader), env.unescape(m.snippet),
                   env.day(m.internalDate, 0), env.day(m.internalDate, 1))
  }

  predicate Accepts(m: Message, env: Env, r: MessageRef) {
    IsDuplicate(Some(m), env.fetchHome(r.id), env.distance)
  }

  /** `Accepts` for one source message, as a search predicate. */
  function AcceptsFor(m: Message, env: Env): MessageRef -> bool {
    r => Accepts(m, env, r)
  }

  /** `check_duplicate`: the id of the first listed candidate that compares as a
      duplicate of `m`, or `None`. The search obeys the run's limit. */
  function DuplicateSearch(m: Message, env: Env, limit: Option<int>): (r: Option<Id>)
    requires EnvValid(env)
    ensures var similar := Listed(env.pages(Home, SearchQueryFor(m, env)), limit, true);
      && (r.None? <==> forall i | 0 <= i < |similar| :: !Accepts(m, env, similar[i]))
      && forall k | 0 <= k < |similar| && Accepts(m, env, similar[k]) &&
           (forall j | 0 <= j < k :: !Accepts(m, env, similar[j])) ::
           env.fetchHome(similar[k].id).Some? && r == Some(env.fetchHome(similar[k].id).value.id)
  {
    var pages := env.pages(Home, SearchQueryFor(m, env));
    assert ListingEnds(pages);
    var similar := Listed(pages, limit, true);
    var k := FirstIndex(similar, AcceptsFor(m, env));
    if k < |similar| then
      assert AcceptsFor(m, env)(similar[k]);
      Some(env.fetchHome(similar[k].id).value.id)
    else None
  }

  /** The search stops at the first accepted candidate `k` of the listing, or returns
      `None` when the listing has none. */
  lemma DuplicateSearchAt(m: Message, env: Env, limit: Option<int>, similar: seq<MessageRef>, k: nat)
    requires EnvValid(env)
    requires similar == Listed(env.pages(Home, SearchQueryFor(m, env)), limit, true)
    requires k <= |similar| && forall j | 0 <= j < k :: !Accepts(m, env, similar[j])
    requires k < |similar| ==> Accepts(m, env, similar[k])
    ensures k < |similar| ==> env.fetchHome(similar[k].id).Some?
    ensures DuplicateSearch(m, env, limit) ==
      if k < |similar| then Some(env.fetchHome(similar[k].id).value.id) else None
  {
    FirstIndexIs(similar, AcceptsFor(m, env), k);
  }

  // --------------------------------------------------------- move_message

  /** Python truthiness of an optional id: present and non-empty. */
  predicate Truthy(s: Option<Id>) {
    s.Some? && s.value != ""
  }

  /** Whether `move_message(id)` takes the insert branch. */
  predicate Inserts(st: Settings, env: Env, id: Id)
    requires EnvValid(env)
  {
    st.skipDeduplicate || !Truthy(DuplicateSearch(env.fetchWork(id), env, st.limit))
  }

  /** The `threadId` put into the insert body: the mapped thread when it is truthy. */
  function TargetThread(threadMap: map<Id, Id>, source: Id): (r: Option<Id>)
    ensures r.Some? <==> source in threadMap && threadMap[source] != ""
    ensures r.Some? ==> r.value == threadMap[source]
  {
    if source in threadMap && threadMap[source] != "" then Some(threadMap[source]) else None
  }

  predicate IsInsert(m: Mutation) {
    m.Insert?
  }

  predicate IsCreate(m: Mutation) {
    m.CreateLabel?
  }

  /** The source ids of the trash requests in a request log, in order. */
  function TrashedIds(ms: seq<Mutation>): seq<Id> {
    if ms == [] then []
    else TrashedIds(ms[..|ms| - 1]) + (if ms[|ms| - 1].Trash? then [ms[|ms| - 1].messageId] else [])
  }

  lemma {:induction false} TrashedIdsAppend(a: seq<Mutation>, b: seq<Mutation>)
    ensures TrashedIds(a + b) == TrashedIds(a) + TrashedIds(b)
  {
    if b == [] {
      assert a + b == a;
    } else {
      assert (a + b)[..|a + b| - 1] == a + b[..|b| - 1];
      TrashedIdsAppend(a, b[..|b| - 1]);
    }
  }

  /** The requests `move_message(id)` sends outside dry run on the insert branch:
      the label creation if the label has to be created, the insert, the trash. */
  function InsertRequests(created: bool, ins: Mutation, id: Id): (r: seq<Mutation>)
    requires ins.Insert?
    ensures |r| >= 2 && r[|r| - 2] == ins && r[|r| - 1] == Trash(id)
    ensures TrashedIds(r) == [id]
    ensures CountWhere(r, IsInsert) == 1
    ensures CountWhere(r, IsCreate) == if created then 1 else 0
  {
    var pre := if created then [CREATE_MARKER] else [];
    var r := pre + [ins, Trash(id)];
    assert [ins, Trash(id)][..1] == [ins];
    assert TrashedIds([ins]) == [];
    assert [CREATE_MARKER][..0] == [];
    TrashedIdsAppend(pre, [ins, Trash(id)]);
    CountWhereAppend(pre, [ins, Trash(id)], IsInsert);
    CountWhereAppend(pre, [ins, Trash(id)], IsCreate);
    r
  }

  /** The insert-branch requests appended one at a time, as `move_message` sends them. */
  lemma InsertRequestsLog(log: seq<Mutation>, created: bool, ins: Mutation, id: Id)
    requires ins.Insert?
    ensures log + InsertRequests(created, ins, id) == ((log + (if created then [CREATE_MARKER] else [])) + [ins]) + [Trash(id)]
  {
    var pre := if created then [CREATE_MARKER] else [];
    assert InsertRequests(created, ins, id) == pre + [ins, Trash(id)];
  }

  /** The insert branch outside dry run: resolve the label, insert into the mapped
      thread (when truthy), record the returned thread, trash the original. */
  function InsertStep(s: Session, env: Env, id: Id): (r: Session)
    ensures var m := env.fetchWork(id);
      var res := ResolveLabel(s.cached, env.labels, env.createdLabelId, false);
      && r.cached == res.resolved && r.cached.Some?
      && r.mutations == s.mutations + InsertRequests(res.created, Insert(m.raw, [r.cached.value.id], TargetThread(s.threadMap, m.threadId)), id)
      && r.threadMap == s.threadMap[m.threadId := env.insertReply(m.raw, TargetThread(s.threadMap, m.threadId))]
      && r.inserted == s.inserted + 1 && r.trashed == s.trashed + 1
  {
    var m := env.fetchWork(id);
    var res := ResolveLabel(s.cached, env.labels, env.createdLabelId, false);
    var thread := TargetThread(s.threadMap, m.threadId);
    Session(
      res.resolved,
      s.threadMap[m.threadId := env.insertReply(m.raw, thread)],
      s.inserted + 1,
      s.trashed + 1,
      s.mutations + InsertRequests(res.created, Insert(m.raw, [res.resolved.value.id], thread), id))
  }

  /** The skip branch outside dry run: only the original is trashed. */
  function SkipStep(s: Session, id: Id): Session {
    s.(trashed := s.trashed + 1, mutations := s.mutations + [Trash(id)])
  }

  /** The state after `move_message(id)`. */
  function MoveStep(s: Session, st: Settings, env: Env, id: Id): (r: Session)
    requires EnvValid(env)
    ensures st.dryRun ==> r == s
    ensures !st.dryRun ==> r.trashed == s.trashed + 1
    ensures !st.dryRun ==> r.inserted == s.inserted + (if Inserts(st, env, id) then 1 else 0)
    ensures !st.dryRun && !Inserts(st, env, id) ==> r.mutations == s.mutations + [Trash(id)]
    ensures !st.dryRun && Inserts(st, env, id) ==>
      var m := env.fetchWork(id);
      var res := ResolveLabel(s.cached, env.labels, env.createdLabelId, false);
      && r.cached == res.resolved && r.cached.Some?
      && r.mutations == s.mutations + InsertRequests(res.created, Insert(m.raw, [r.cached.value.id], TargetThread(s.threadMap, m.threadId)), id)
      && r.threadMap == s.threadMap[m.threadId := env.insertReply(m.raw, TargetThread(s.threadMap, m.threadId))]
    ensures !(!st.dryRun && Inserts(st, env, id)) ==> r.threadMap == s.threadMap && r.cached == s.cached
  {
    if st.dryRun then s
    else if Inserts(st, env, id) then InsertStep(s, env, id)
    else SkipStep(s, id)
  }

  /** The state after `move_message` on each of `ids` in turn. */
  function RunSteps(s: Session, st: Settings, env: Env, ids: seq<Id>): Session
    requires EnvValid(env)
  {
    if ids == [] then s
    else MoveStep(RunSteps(s, st, env, ids[..|ids| - 1]), st, env, ids[|ids| - 1])
  }

  // ---------------------------------------------------- enumeration and run

  /** The queries for one correspondent: `to:<c>` then `from:<c>`. */
  function DirectionQueries(c: string): seq<string> {
    seq(|DIRECTIONS|, d requires 0 <= d < |DIRECTIONS| => DIRECTIONS[d] + ":" + c)
  }

  /** The queries of `get_private_messages_from_work`, in issue order. */
  function Queries(cs: seq<string>): seq<string> {
    if cs == [] then []
    else Queries(cs[..|cs| - 1]) + DirectionQueries(cs[|cs| - 1])
  }

  /** The entries all queries list, concatenated in query order. */
  function Gathered(qs: seq<string>, env: Env, limit: Option<int>): seq<MessageRef>
    requires EnvValid(env)
  {
    if qs == [] then []
    else Gathered(qs[..|qs| - 1], env, limit) + Listed(env.pages(Work, qs[|qs| - 1]), limit, true)
  }

  function IdsOf(refs: seq<MessageRef>): (r: seq<Id>)
    ensures |r| == |refs| && forall i | 0 <= i < |refs| :: r[i] == refs[i].id
  {
    seq(|refs|, i requires 0 <= i < |refs| => refs[i].id)
  }

  function ThreadsOf(refs: seq<MessageRef>): (r: seq<Id>)
    ensures |r| == |refs| && forall i | 0 <= i < |refs| :: r[i] == refs[i].threadId
  {
    seq(|refs|, i requires 0 <= i < |refs| => refs[i].threadId)
  }

  /** The `messages` list `get_private_messages_from_work` returns. */
  function EnumeratedIds(st: Settings, env: Env): seq<Id>
    requires EnvValid(env)
  {
    Distinct(IdsOf(Gathered(Queries(st.correspondents), env, st.limit)))
  }

  /** The ids `run` hands to `move_message`: `messages[:limit]`, or all of them. */
  function MessagesToMove(st: Settings, env: Env): seq<Id>
    requires EnvValid(env)
  {
    var ids := EnumeratedIds(st, env);
    if st.limit.Some? then SliceTo(ids, st.limit.value) else ids
  }

  // ------------------------------------------------------------- lemmas

  lemma QueriesSnoc(cs: seq<string>, i: nat)
    requires i < |cs|
    ensures Queries(cs[..i + 1]) == Queries(cs[..i]) + DirectionQueries(cs[i])
  {
    assert cs[..i + 1][..i] == cs[..i];
  }

  lemma GatheredSnoc(qs: seq<string>, q: string, env: Env, limit: Option<int>)
    requires EnvValid(env)
    ensures Gathered(qs + [q], env, limit) == Gathered(qs, env, limit) + Listed(env.pages(Work, q), limit, true)
  {
    assert (qs + [q])[..|qs|] == qs;
  }

  /** The queries are exactly `to:<c>` and `from:<c>` for each correspondent `c`, in order. */
  lemma {:induction false} QueriesPairUp(cs: seq<string>)
    ensures |Queries(cs)| == 2 * |cs|
    ensures forall i | 0 <= i < |cs| ::
      Queries(cs)[2 * i] == "to:" + cs[i] && Queries(cs)[2 * i + 1] == "from:" + cs[i]
  {
    if cs != [] {
      var init := cs[..|cs| - 1];
      QueriesPairUp(init);
      forall i | 0 <= i < |cs|
        ensures Queries(cs)[2 * i] == "to:" + cs[i] && Queries(cs)[2 * i + 1] == "from:" + cs[i]
      {
        if i < |cs| - 1 {
          assert init[i] == cs[i];
        }
      }
    }
  }

  /** An entry is gathered exactly when some query lists it. */
  lemma {:induction false} GatheredMembership(qs: seq<string>, env: Env, limit: Option<int>, r: MessageRef)
    requires EnvValid(env)
    ensures r in Gathered(qs, env, limit) <==>
      exists i | 0 <= i < |qs| :: r in Listed(env.pages(Work, qs[i]), limit, true)
  {
    if qs != [] {
      var init := qs[..|qs| - 1];
      GatheredMembership(init, env, limit, r);
      if r in Gathered(init, env, limit) {
        var i :| 0 <= i < |init| && r in Listed(env.pages(Work, init[i]), limit, true);
        assert qs[i] == init[i];
      }
      if exists i | 0 <= i < |qs| :: r in Listed(env.pages(Work, qs[i]), limit, true) {
        var i :| 0 <= i < |qs| && r in Listed(env.pages(Work, qs[i]), limit, true);
        if i < |qs| - 1 {
          assert init[i] == qs[i];
        }
      }
    }
  }

  lemma IdsOfMembership(refs: seq<MessageRef>, id: Id)
    ensures id in IdsOf(refs) <==> exists r | r in refs :: r.id == id
  {
    if id in IdsOf(refs) {
      var j :| 0 <= j < |refs| && IdsOf(refs)[j] == id;
      assert refs[j] in refs;
    }
    if exists r | r in refs :: r.id == id {
      var r :| r in refs && r.id == id;
      var j :| 0 <= j < |refs| && refs[j] == r;
      assert IdsOf(refs)[j] == id;
    }
  }

  /** An id is among the gathered references exactly when some query listed it. */
  lemma GatheredIds(qs: seq<string>, env: Env, limit: Option<int>, id: Id)
    requires EnvValid(env)
    ensures id in IdsOf(Gathered(qs, env, limit)) <==>
      exists i: int, r: MessageRef | 0 <= i < |qs| && r.id == id :: r in Listed(env.pages(Work, qs[i]), limit, true)
  {
    var refs := Gathered(qs, env, limit);
    IdsOfMembership(refs, id);
    if id in IdsOf(refs) {
      var r :| r in refs && r.id == id;
      GatheredMembership(qs, env, limit, r);
      var i :| 0 <= i < |qs| && r in Listed(env.pages(Work, qs[i]), limit, true);
    } else {
      forall i: int, r: MessageRef | 0 <= i < |qs| && r.id == id
        ensures r !in Listed(env.pages(Work, qs[i]), limit, true)
      {
        GatheredMembership(qs, env, limit, r);
      }
    }
  }

  /** The enumerated ids hold no repeats and are exactly the ids some query listed. */
  lemma EnumeratedIdsAreListed(st: Settings, env: Env, id: Id)
    requires EnvValid(env)
    ensures NoDup(EnumeratedIds(st, env))
    ensures id in EnumeratedIds(st, env) <==>
      exists i: int, r: MessageRef | 0 <= i < |Queries(st.correspondents)| && r.id == id ::
        r in Listed(env.pages(Work, Queries(st.correspondents)[i]), st.limit, true)
  {
    var qs := Queries(st.correspondents);
    var ids := IdsOf(Gathered(qs, env, st.limit));
    DistinctMembers(ids, id);
    GatheredIds(qs, env, st.limit, id);
  }

  /** `run` moves no id twice and, under a non-negative limit, at most `limit` ids,
      however far the enumeration overshot. */
  lemma MessagesToMoveBounded(st: Settings, env: Env)
    requires EnvValid(env)
    ensures NoDup(MessagesToMove(st, env))
    ensures st.limit.Some? && st.limit.value >= 0 ==> |MessagesToMove(st, env)| <= st.limit.value
    ensures st.limit.None? ==> MessagesToMove(st, env) == EnumeratedIds(st, env)
  {
    if st.limit.Some? {
      SliceToNoDup(EnumeratedIds(st, env), st.limit.value);
    }
  }

  /** In dry run a whole run leaves the state, counters and request log untouched. */
  lemma {:induction false} DryRunChangesNothing(s: Session, st: Settings, env: Env, ids: seq<Id>)
    requires EnvValid(env) && st.dryRun
    ensures RunSteps(s, st, env, ids) == s
  {
    if ids != [] {
      DryRunChangesNothing(s, st, env, ids[..|ids| - 1]);
    }
  }

  /** How many of `ids` take the insert branch. */
  function InsertingAmong(st: Settings, env: Env, ids: seq<Id>): (n: nat)
    requires EnvValid(env)
    ensures n <= |ids|
  {
    if ids == [] then 0
    else InsertingAmong(st, env, ids[..|ids| - 1]) + (if Inserts(st, env, ids[|ids| - 1]) then 1 else 0)
  }

  /** What one move outside dry run adds to the counters and the request log. */
  lemma MoveStepCounts(p: Session, st: Settings, env: Env, id: Id)
    requires EnvValid(env) && !st.dryRun
    ensures var r := MoveStep(p, st, env, id);
      && |p.mutations| <= |r.mutations| && r.mutations == p.mutations + r.mutations[|p.mutations|..]
      && TrashedIds(r.mutations[|p.mutations|..]) == [id]
      && CountWhere(r.mutations[|p.mutations|..], IsInsert) == (if Inserts(st, env, id) then 1 else 0)
      && CountWhere(r.mutations[|p.mutations|..], IsCreate) + (if p.cached.Some? then 1 else 0)
           <= (if r.cached.Some? then 1 else 0)
  {
    var r := MoveStep(p, st, env, id);
    var added := r.mutations[|p.mutations|..];
    if Inserts(st, env, id) {
      var m := env.fetchWork(id);
      var res := ResolveLabel(p.cached, env.labels, env.createdLabelId, false);
      var ins := Insert(m.raw, [r.cached.value.id], TargetThread(p.threadMap, m.threadId));
      assert added == InsertRequests(res.created, ins, id);
    } else {
      assert added == [Trash(id)];
      assert [Trash(id)][..0] == [];
    }
  }

  /** Outside dry run every moved id is trashed exactly once, in order, and `trashed`
      counts them all. */
  lemma {:induction false} RunTrashesEach(s: Session, st: Settings, env: Env, ids: seq<Id>)
    requires EnvValid(env) && !st.dryRun
    ensures var r := RunSteps(s, st, env, ids);
      && r.trashed == s.trashed + |ids|
      && TrashedIds(r.mutations) == TrashedIds(s.mutations) + ids
  {
    if ids != [] {
      var init := ids[..|ids| - 1];
      var id := ids[|ids| - 1];
      PrefixSnoc(ids, |ids| - 1);
      PrefixAll(ids);
      RunTrashesEach(s, st, env, init);
      var p := RunSteps(s, st, env, init);
      MoveStepCounts(p, st, env, id);
      var r := MoveStep(p, st, env, id);
      TrashedIdsAppend(p.mutations, r.mutations[|p.mutations|..]);
      AppendAssoc(TrashedIds(s.mutations), init, [id]);
    }
  }

  /** Outside dry run `inserted` counts the moved ids not found to be duplicates, and
      the log holds one insert request per insertion. */
  lemma {:induction false} RunInsertsCounted(s: Session, st: Settings, env: Env, ids: seq<Id>)
    requires EnvValid(env) && !st.dryRun
    ensures var r := RunSteps(s, st, env, ids);
      && r.inserted == s.inserted + InsertingAmong(st, env, ids)
      && CountWhere(r.mutations, IsInsert) == CountWhere(s.mutations, IsInsert) + InsertingAmong(st, env, ids)
  {
    if ids != [] {
      var init := ids[..|ids| - 1];
      var id := ids[|ids| - 1];
      RunInsertsCounted(s, st, env, init);
      var p := RunSteps(s, st, env, init);
      MoveStepCounts(p, st, env, id);
      var r := MoveStep(p, st, env, id);
      CountWhereAppend(p.mutations, r.mutations[|p.mutations|..], IsInsert);
    }
  }

  /** Outside dry run a run sends at most one label creation request, and none once a
      label is cached. */
  lemma {:induction false} LabelCreatedAtMostOnce(s: Session, st: Settings, env: Env, ids: seq<Id>)
    requires EnvValid(env) && !st.dryRun
    ensures var r := RunSteps(s, st, env, ids);
      CountWhere(r.mutations, IsCreate) + (if s.cached.Some? then 1 else 0)
        <= CountWhere(s.mutations, IsCreate) + (if r.cached.Some? then 1 else 0)
  {
    if ids != [] {
      var init := ids[..|ids| - 1];
      var id := ids[|ids| - 1];
      LabelCreatedAtMostOnce(s, st, env, init);
      var p := RunSteps(s, st, env, init);
      MoveStepCounts(p, st, env, id);
      var r := MoveStep(p, st, env, id);
      CountWhereAppend(p.mutations, r.mutations[|p.mutations|..], IsCreate);
    }
  }

  /** Two messages of one source thread moved one after the other outside dry run: the
      second insert asks for the thread the first insert returned (when that is truthy),
      and the map then holds the second insert's thread, overwriting the first. */
  lemma ThreadContinuity(s: Session, st: Settings, env: Env, a: Id, b: Id)
    requires EnvValid(env) && !st.dryRun
    requires Inserts(st, env, a) && Inserts(st, env, b)
    requires env.fetchWork(a).threadId == env.fetchWork(b).threadId
    ensures var t := env.fetchWork(a).threadId;
      var first := env.insertReply(env.fetchWork(a).raw, TargetThread(s.threadMap, t));
      var s1 := MoveStep(s, st, env, a);
      var s2 := MoveStep(s1, st, env, b);
      && TargetThread(s1.threadMap, t) == (if first != "" then Some(first) else None)
      && s2.mutations[|s2.mutations| - 2].Insert?
      && s2.mutations[|s2.mutations| - 2].threadId == TargetThread(s1.threadMap, t)
      && s1.mutations[|s1.mutations| - 2].threadId == TargetThread(s.threadMap, t)
      && s2.threadMap[t] == env.insertReply(env.fetchWork(b).raw, TargetThread(s1.threadMap, t))
  {
  }

  /** A message judged a duplicate is trashed but not inserted, and the thread map is
      left alone. */
  lemma DuplicateSkipped(s: Session, st: Settings, env: Env, id: Id)
    requires EnvValid(env) && !st.dryRun
    requires !Inserts(st, env, id)
    ensures var r := MoveStep(s, st, env, id);
      r == s.(trashed := s.trashed + 1, mutations := s.mutations + [Trash(id)])
  {
  }
}
