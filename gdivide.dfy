/** The `Divider` class: the state it keeps for one run and the methods that read and
    update it, each proved against the functions of `Migration`, `Listing` and
    `Duplicates`. The mailbox API answers through an `Env`. */
module Gdivide {
  import opened Wrappers
  import opened Lists
  import opened Listing
  import opened Duplicates
  import opened Migration

  class Divider {
    const privateCorrespondents: seq<string>
    const limit: Option<int>
    const skipDeduplicate: bool
    const dryRun: bool

    /** `_label`, `thread_map`, `stats_inserted`, `stats_trashed`. */
    var cachedLabel: Option<Label>
    var threadMap: map<Id, Id>
    var statsInserted: nat
    var statsTrashed: nat
    /** The mutating requests sent to the mailbox API, in order. */
    var mutations: seq<Mutation>

    function Config(): Settings {
      Settings(privateCorrespondents, limit, skipDeduplicate, dryRun)
    }

    function State(): Session
      reads this
    {
      Session(cachedLabel, threadMap, statsInserted, statsTrashed, mutations)
    }

    constructor (privateCorrespondents: seq<string>, limit: Option<int>, skipDeduplicate: bool, dryRun: bool)
      ensures Config() == Settings(privateCorrespondents, limit, skipDeduplicate, dryRun)
      ensures State() == INITIAL
    {
      this.privateCorrespondents := privateCorrespondents;
      this.limit := limit;
      this.skipDeduplicate := skipDeduplicate;
      this.dryRun := dryRun;
      cachedLabel := None;
      threadMap := map[];
      statsInserted := 0;
      statsTrashed := 0;
      mutations := [];
    }

    /** `_get_messages(service, query, obey_limit)` over the responses `pages`; also
        returns the account each page was requested from. */
    method GetMessages(service: Account, pages: seq<Page>, obeyLimit: bool) returns (all: seq<MessageRef>, queried: seq<Account>)
      requires ListingEnds(pages)
      ensures all == Listed(pages, limit, obeyLimit)
      ensures |queried| == PagesConsumed(pages, limit, obeyLimit)
      ensures queried[0] == service
      ensures forall i | 1 <= i < |queried| :: queried[i] == Work
    {
      var resp := pages[0];
      queried := [service];
      all := [];
      all := all + Entries(resp);
      assert pages[..1][..0] == [];
      var read := 1;
      while resp.nextPageToken.Some?
        invariant 1 <= read <= |pages| && resp == pages[read - 1]
        invariant all == Collected(pages[..read])
        invariant |queried| == read && queried[0] == service
        invariant forall i | 1 <= i < read :: queried[i] == Work
        invariant read > 1 && LimitSet(limit) && obeyLimit ==> |all| < limit.value
        invariant PagesConsumed(pages, limit, obeyLimit) == ConsumedFrom(pages, read, limit, obeyLimit)
        decreases |pages| - read
      {
        resp := pages[read];
        queried := queried + [Work];
        all := all + Entries(resp);
        read := read + 1;
        assert pages[..read][..read - 1] == pages[..read - 2 + 1];
        if LimitSet(limit) {
          if obeyLimit && |all| >= limit.value {
            break;
          }
        }
      }
    }

    /** `get_private_messages_from_work`: the distinct message ids and thread ids listed
        by the `to:` and `from:` query of every correspondent. */
    method GetPrivateMessagesFromWork(env: Env) returns (messages: seq<Id>, threads: seq<Id>)
      requires EnvValid(env)
      ensures var refs := Gathered(Queries(privateCorrespondents), env, limit);
        messages == Distinct(IdsOf(refs)) && threads == Distinct(ThreadsOf(refs))
      ensures messages == EnumeratedIds(Config(), env)
      ensures NoDup(messages) && NoDup(threads)
    {
      var all: seq<MessageRef> := [];
      for i := 0 to |privateCorrespondents|
        invariant all == Gathered(Queries(privateCorrespondents[..i]), env, limit)
      {
        var correspondent := privateCorrespondents[i];
        ghost var before := Queries(privateCorrespondents[..i]);
        ghost var dirs := DirectionQueries(correspondent);
        PrefixAll(dirs);
        PrefixAll(before);
        for d := 0 to |DIRECTIONS|
          invariant all == Gathered(before + dirs[..d], env, limit)
        {
          var query := DIRECTIONS[d] + ":" + correspondent;
          var listed, _ := GetMessages(Work, env.pages(Work, query), true);
          assert dirs[d] == query;
          PrefixSnoc(dirs, d);
          AppendAssoc(before, dirs[..d], [query]);
          GatheredSnoc(before + dirs[..d], query, env, limit);
          all := all + listed;
        }
        QueriesSnoc(privateCorrespondents, i);
      }
      PrefixAll(privateCorrespondents);
      threads := Distinct(ThreadsOf(all));
      messages := Distinct(IdsOf(all));
    }

    /** `get_or_create_label`; `listed` tells whether the labels were listed. */
    method GetOrCreateLabel(env: Env) returns (result: Option<Label>, listed: bool)
      modifies this`cachedLabel, this`mutations
      ensures var res := ResolveLabel(old(cachedLabel), env.labels, env.createdLabelId, dryRun);
        && cachedLabel == res.resolved
        && mutations == old(mutations) + (if res.created then [CREATE_MARKER] else [])
      ensures result == cachedLabel
      ensures listed <==> old(cachedLabel).None?
    {
      listed := false;
      if cachedLabel.Some? {
        return cachedLabel, listed;
      }
      listed := true;
      var i := 0;
      while i < |env.labels|
        invariant 0 <= i <= |env.labels|
        invariant forall j | 0 <= j < i :: !IsMarker(env.labels[j])
        invariant cachedLabel == old(cachedLabel) && mutations == old(mutations)
      {
        if env.labels[i].name == LABEL_NAME {
          cachedLabel := Some(env.labels[i]);
          FirstIndexIs(env.labels, IsMarker, i);
          return cachedLabel, listed;
        }
        i := i + 1;
      }
      FirstIndexIs(env.labels, IsMarker, i);
      if !dryRun {
        mutations := mutations + [CREATE_MARKER];
        cachedLabel := Some(Label(env.createdLabelId, LABEL_NAME));
      }
      return cachedLabel, listed;
    }

    /** `check_duplicate(message)`. */
    method CheckDuplicate(message: Message, env: Env) returns (duplicate: Option<Id>)
      requires EnvValid(env)
      ensures duplicate == DuplicateSearch(message, env, limit)
    {
      // the subject, the unescaped snippet and the two days, sanitised into one query
      var query := SearchQueryFor(message, env);
      var similar, _ := GetMessages(Home, env.pages(Home, query), true);
      var i := 0;
      while i < |similar|
        invariant 0 <= i <= |similar|
        invariant forall j | 0 <= j < i :: !Accepts(message, env, similar[j])
      {
        var candidate := env.fetchHome(similar[i].id);
        if IsDuplicate(Some(message), candidate, env.distance) {
          DuplicateSearchAt(message, env, limit, similar, i);
          return Some(candidate.value.id);
        }
        i := i + 1;
      }
      DuplicateSearchAt(message, env, limit, similar, i);
      return None;
    }

    /** `trash_message(message_id)`. */
    method TrashMessage(messageId: Id)
      modifies this`mutations
      ensures mutations == old(mutations) + [Trash(messageId)]
    {
      mutations := mutations + [Trash(messageId)];
    }

    /** The insert branch of `move_message` outside dry run. */
    method InsertMessage(messageId: Id, env: Env)
      requires !dryRun
      modifies this
      ensures State() == InsertStep(old(State()), env, messageId)
    {
      var message := env.fetchWork(messageId);
      var threadId: Option<Id> := if message.threadId in threadMap then Some(threadMap[message.threadId]) else None;
      ghost var res := ResolveLabel(cachedLabel, env.labels, env.createdLabelId, false);
      var marker, _ := GetOrCreateLabel(env);
      var bodyThread := if Truthy(threadId) then threadId else None;
      assert bodyThread == TargetThread(old(threadMap), message.threadId);
      ghost var ins := Insert(message.raw, [marker.value.id], bodyThread);
      InsertRequestsLog(old(mutations), res.created, ins, messageId);
      mutations := mutations + [Insert(message.raw, [marker.value.id], bodyThread)];
      var reply := env.insertReply(message.raw, bodyThread);
      statsInserted := statsInserted + 1;
      threadMap := threadMap[message.threadId := reply];
      TrashMessage(messageId);
      statsTrashed := statsTrashed + 1;
    }

    /** `move_message(message_id)`, for a message that is fetched successfully. */
    method MoveMessage(messageId: Id, env: Env)
      requires EnvValid(env)
      modifies this
      ensures State() == MoveStep(old(State()), Config(), env, messageId)
    {
      var message := env.fetchWork(messageId);
      var duplicate: Option<Id> := None;
      if !skipDeduplicate {
        duplicate := CheckDuplicate(message, env);
      }
      assert skipDeduplicate || !Truthy(duplicate) <==> Inserts(Config(), env, messageId);
      if skipDeduplicate || !Truthy(duplicate) {
        if !dryRun {
          InsertMessage(messageId, env);
        }
      } else {
        if !dryRun {
          TrashMessage(messageId);
          statsTrashed := statsTrashed + 1;
        }
      }
    }

    /** `run`: enumerate, keep `messages[:limit]` when a limit is given, move each. */
    method Run(env: Env) returns (processed: seq<Id>)
      requires EnvValid(env)
      modifies this
      ensures processed == MessagesToMove(Config(), env)
      ensures State() == RunSteps(old(State()), Config(), env, processed)
    {
      var messages, _ := GetPrivateMessagesFromWork(env);
      if limit.Some? {
        messages := SliceTo(messages, limit.value);
      }
      for i := 0 to |messages|
        invariant State() == RunSteps(old(State()), Config(), env, messages[..i])
      {
        PrefixSnoc(messages, i);
        MoveMessage(messages[i], env);
      }
      assert messages[..|messages|] == messages;
      processed := messages;
    }
  }
}
