/** The Telegram bot of bot.go as a state machine over the pending-note
    markers and the entries table.  One incoming update is handled by
    `Step`, a function from the old state to the new state and the reply the
    bot sends; the class `Bot` keeps the markers in place, drives the
    store, and is proved to agree with `Step` and with `Run`, the fold of
    `Step` over a stream of updates.  Telegram's transport is not
    modelled: an update arrives already decoded, a reply is the text the
    bot sends back, and each update carries the clock reading and the
    storage fault its store call meets. */
module TelegramBot {
  import opened Wrappers
  import opened Store
  import Helpers

  /** A bot command as Telegram delivers it: the name without the slash,
      and the text after it. */
  datatype Command = Command(name: string, args: string)

  /** A message: the sender's Telegram id, its text, and the command it
      opens with, if it is a command. */
  datatype Message = Message(fromId: int, text: string, command: Option<Command>)

  datatype Update = Update(message: Option<Message>)

  /** One update together with the clock reading and the storage fault its
      handling meets. */
  datatype Event = Event(update: Update, now: Timestamp, fault: Fault)

  // ---------------------------------------------------------------------
  // Lookups
  // ---------------------------------------------------------------------

  /** The allow-list NewTelegramBot builds from the configured ids. */
  function AllowList(users: seq<int>): map<int, bool> {
    map id | id in users :: true
  }

  /** isAuthorized: with no users configured the bot is open to everyone;
      otherwise the user must be listed with the value true. */
  function IsAuthorized(authorizedUsers: map<int, bool>, userId: int): bool {
    |authorizedUsers| == 0 || (userId in authorizedUsers && authorizedUsers[userId])
  }

  /** hasPendingNote: the marker counts by its presence alone. */
  function HasPendingNote(pendingNotes: map<int, bool>, userId: int): bool {
    userId in pendingNotes
  }

  /** An empty list of ids lets everyone in; otherwise exactly the listed
      ids are let in. */
  lemma AllowListAuthorization(users: seq<int>, userId: int)
    ensures IsAuthorized(AllowList(users), userId) <==> users == [] || userId in users
  {
    if users != [] {
      assert users[0] in AllowList(users);
    }
  }

  // ---------------------------------------------------------------------
  // Replies
  // ---------------------------------------------------------------------

  /** The replies the bot sends; with no connection to Telegram modelled,
      a reply is its text, given by `ReplyText`. */
  datatype Reply =
    | Unauthorized(userId: int)
    | NotePrompt
    | StartedWithNote(note: string)
    | Started
    | Stopped
    | Help
    | UnknownCommand
    | StoreFailed(err: StoreError)

  const StartedPrefix := "\U{23F2}\U{FE0F} Timer is started."
  const StartedSuffix := "\nUse /stop for stopping timer."

  function ReplyText(r: Reply): string {
    match r
    case Unauthorized(userId) => "You are not authorized to use this bot. \nYour Telegram ID is: " + Helpers.FormatInt(userId)
    case NotePrompt => "Please enter your note or type 'x' if you do not wish to provide a note."
    case StartedWithNote(note) => StartedPrefix + (if note != "" then " Note is: " + note else "") + StartedSuffix
    case Started => StartedPrefix + StartedSuffix
    case Stopped => "\U{274C} Timer is stopped."
    case Help => "Available commands:\n/start - Starts timer with optional note\n/stop - Stops timer\n/help - Show this help message"
    case UnknownCommand => "Unknown command. Type /help to see available commands."
    case StoreFailed(err) => ErrorText(err)
  }

  /** The note for a message answering the prompt: "x" stands for none. */
  function NoteOf(text: string): string {
    if text == "x" then "" else text
  }

  /** Without a note, the reply is the same as for a start with arguments;
      with one, the reply ends by quoting it. */
  lemma StartedReplies(note: string)
    ensures note == "" ==> ReplyText(StartedWithNote(note)) == ReplyText(Started)
    ensures note != "" ==> ReplyText(StartedWithNote(note)) == StartedPrefix + " Note is: " + note + StartedSuffix
  {
    assert StartedPrefix + "" == StartedPrefix;
  }

  // ---------------------------------------------------------------------
  // The state machine
  // ---------------------------------------------------------------------

  datatype BotState = BotState(pendingNotes: map<int, bool>, table: Table)

  /** The new state and the reply after a handler ran. */
  datatype Handled = Handled(state: BotState, reply: Reply)

  datatype StepResult = StepResult(state: BotState, reply: Option<Reply>)

  /** processPendingNote: start tracking with the note, relay the store's
      error if there is one, and drop the marker either way. */
  function PendingNoteStep(s: BotState, userId: int, text: string, now: Timestamp, fault: Fault): Handled {
    var note := NoteOf(text);
    var r := StartTransition(s.table, Helpers.FormatInt(userId), note, now, fault);
    var reply := if r.err.Some? then StoreFailed(r.err.value) else StartedWithNote(note);
    Handled(BotState(s.pendingNotes - {userId}, r.table), reply)
  }

  /** handleCommand. */
  function CommandStep(s: BotState, userId: int, cmd: Command, now: Timestamp, fault: Fault): Handled {
    var uid := Helpers.FormatInt(userId);
    if cmd.name == "start" then
      if |cmd.args| == 0 then
        Handled(BotState(s.pendingNotes[userId := true], s.table), NotePrompt)
      else
        var r := StartTransition(s.table, uid, cmd.args, now, fault);
        Handled(BotState(s.pendingNotes, r.table), if r.err.Some? then StoreFailed(r.err.value) else Started)
    else if cmd.name == "stop" then
      var r := StopTransition(s.table, uid, now, fault);
      if r.err.Some? then Handled(BotState(s.pendingNotes, r.table), StoreFailed(r.err.value))
      else Handled(BotState(s.pendingNotes - {userId}, r.table), Stopped)
    else if cmd.name == "help" then
      Handled(s, Help)
    else
      Handled(s, UnknownCommand)
  }

  function Replied(h: Handled): StepResult {
    StepResult(h.state, Some(h.reply))
  }

  /** One pass of the update loop in Start: updates without a message are
      skipped; then authorisation, then a pending note, then a command, in
      that order; any other message is ignored. */
  function Step(authorizedUsers: map<int, bool>, s: BotState, u: Update, now: Timestamp, fault: Fault): StepResult {
    match u.message
    case None => StepResult(s, None)
    case Some(m) =>
      if !IsAuthorized(authorizedUsers, m.fromId) then
        StepResult(s, Some(Unauthorized(m.fromId)))
      else if HasPendingNote(s.pendingNotes, m.fromId) then
        Replied(PendingNoteStep(s, m.fromId, m.text, now, fault))
      else
        match m.command
        case Some(cmd) => Replied(CommandStep(s, m.fromId, cmd, now, fault))
        case None => StepResult(s, None)
  }

  /** The state after a stream of updates, and the replies sent, in order. */
  datatype RunResult = RunResult(state: BotState, sent: seq<Reply>)

  function Run(authorizedUsers: map<int, bool>, s: BotState, events: seq<Event>): RunResult {
    if events == [] then RunResult(s, [])
    else
      var prev := Run(authorizedUsers, s, events[..|events| - 1]);
      var e := events[|events| - 1];
      var r := Step(authorizedUsers, prev.state, e.update, e.now, e.fault);
      RunResult(r.state, prev.sent + (if r.reply.Some? then [r.reply.value] else []))
  }

  /** What holds of the bot between updates: the table's invariants (among
      them at most one active entry per user), and every marker is set to
      true and belongs to an authorised user. */
  predicate BotInvariant(authorizedUsers: map<int, bool>, s: BotState) {
    && WellFormed(s.table)
    && forall k :: k in s.pendingNotes ==> s.pendingNotes[k] && IsAuthorized(authorizedUsers, k)
  }

  // ---------------------------------------------------------------------
  // Properties of one step
  // ---------------------------------------------------------------------

  /** A message from an unauthorised user changes neither the markers nor
      the store; the reply tells the user their id. */
  lemma UnauthorizedChangesNothing(authorizedUsers: map<int, bool>, s: BotState, m: Message, now: Timestamp, fault: Fault)
    requires !IsAuthorized(authorizedUsers, m.fromId)
    ensures Step(authorizedUsers, s, Update(Some(m)), now, fault) == StepResult(s, Some(Unauthorized(m.fromId)))
  {
  }

  /** While a marker is pending, the next message is the note, whatever it
      says: two messages with the same sender and text are handled alike
      whether or not they are commands, and never reach handleCommand. */
  lemma PendingNoteWins(authorizedUsers: map<int, bool>, s: BotState, userId: int, text: string,
                        c1: Option<Command>, c2: Option<Command>, now: Timestamp, fault: Fault)
    requires IsAuthorized(authorizedUsers, userId) && HasPendingNote(s.pendingNotes, userId)
    ensures Step(authorizedUsers, s, Update(Some(Message(userId, text, c1))), now, fault)
         == Step(authorizedUsers, s, Update(Some(Message(userId, text, c2))), now, fault)
    ensures Step(authorizedUsers, s, Update(Some(Message(userId, text, c1))), now, fault)
         == Replied(PendingNoteStep(s, userId, text, now, fault))
  {
  }

  /** Handling a note always drops the user's marker and only that marker;
      it starts tracking for the user's decimal id with the text as the
      note, except that exactly "x" stands for no note; a store error is
      relayed verbatim. */
  lemma PendingNoteEffects(s: BotState, userId: int, text: string, now: Timestamp, fault: Fault)
    ensures var h := PendingNoteStep(s, userId, text, now, fault);
      var st := StartTransition(s.table, Helpers.FormatInt(userId), NoteOf(text), now, fault);
      && !HasPendingNote(h.state.pendingNotes, userId)
      && (forall k :: k != userId ==> (k in h.state.pendingNotes <==> k in s.pendingNotes))
      && h.state.table == st.table
      && (st.err.Some? ==> h.reply == StoreFailed(st.err.value) && ReplyText(h.reply) == ErrorText(st.err.value))
      && (st.err.None? ==> h.reply == StartedWithNote(NoteOf(text)))
  {
  }

  /** "x" and only "x" is read as no note; any other text is the note,
      verbatim. */
  lemma NoteRule(text: string)
    ensures NoteOf(text) == "" <==> text == "x" || text == ""
    ensures text != "x" ==> NoteOf(text) == text
  {
  }

  /** /start without arguments only sets the marker: no store write.  With
      arguments it starts tracking with them as the note, relays a store
      error verbatim, and leaves the markers alone. */
  lemma StartCommandEffects(s: BotState, userId: int, args: string, now: Timestamp, fault: Fault)
    ensures var h := CommandStep(s, userId, Command("start", args), now, fault);
      && (args == "" ==> h == Handled(BotState(s.pendingNotes[userId := true], s.table), NotePrompt))
      && (args != "" ==>
            var st := StartTransition(s.table, Helpers.FormatInt(userId), args, now, fault);
            && h.state == BotState(s.pendingNotes, st.table)
            && h.reply == if st.err.Some? then StoreFailed(st.err.value) else Started)
  {
  }

  /** /stop stops the user's active entry and drops the marker only when
      that succeeds; a store error is relayed verbatim and keeps the
      markers. */
  lemma StopCommandEffects(s: BotState, userId: int, args: string, now: Timestamp, fault: Fault)
    ensures var h := CommandStep(s, userId, Command("stop", args), now, fault);
      var st := StopTransition(s.table, Helpers.FormatInt(userId), now, fault);
      && h.state.table == st.table
      && (st.err.Some? ==> h.state.pendingNotes == s.pendingNotes && h.reply == StoreFailed(st.err.value))
      && (st.err.None? ==> h.state.pendingNotes == s.pendingNotes - {userId} && h.reply == Stopped)
  {
  }

  /** A /stop that reaches handleCommand comes from a user without a
      marker, so the marker it drops is never there: /stop leaves the
      markers exactly as they were. */
  lemma StopNeverClearsAMarker(s: BotState, userId: int, args: string, now: Timestamp, fault: Fault)
    requires !HasPendingNote(s.pendingNotes, userId)
    ensures CommandStep(s, userId, Command("stop", args), now, fault).state.pendingNotes == s.pendingNotes
  {
    assert s.pendingNotes - {userId} == s.pendingNotes;
  }

  /** /help, unknown commands, messages that are not commands, and updates
      without a message change neither the markers nor the store. */
  lemma QuietUpdates(authorizedUsers: map<int, bool>, s: BotState, u: Update, now: Timestamp, fault: Fault)
    requires u.message.Some? ==> !HasPendingNote(s.pendingNotes, u.message.value.fromId)
    requires u.message.Some? && u.message.value.command.Some? ==>
      u.message.value.command.value.name != "start" && u.message.value.command.value.name != "stop"
    ensures Step(authorizedUsers, s, u, now, fault).state == s
  {
  }

  lemma PendingNotePreservesInvariant(authorizedUsers: map<int, bool>, s: BotState, userId: int, text: string, now: Timestamp, fault: Fault)
    requires BotInvariant(authorizedUsers, s)
    ensures BotInvariant(authorizedUsers, PendingNoteStep(s, userId, text, now, fault).state)
    ensures Evolves(s.table, PendingNoteStep(s, userId, text, now, fault).state.table)
  {
    StartPreservesWellFormed(s.table, Helpers.FormatInt(userId), NoteOf(text), now, fault);
    StartEvolves(s.table, Helpers.FormatInt(userId), NoteOf(text), now, fault);
  }

  lemma CommandPreservesInvariant(authorizedUsers: map<int, bool>, s: BotState, userId: int, cmd: Command, now: Timestamp, fault: Fault)
    requires BotInvariant(authorizedUsers, s) && IsAuthorized(authorizedUsers, userId)
    ensures BotInvariant(authorizedUsers, CommandStep(s, userId, cmd, now, fault).state)
    ensures Evolves(s.table, CommandStep(s, userId, cmd, now, fault).state.table)
  {
    var uid := Helpers.FormatInt(userId);
    if cmd.name == "start" {
      StartPreservesWellFormed(s.table, uid, cmd.args, now, fault);
      StartEvolves(s.table, uid, cmd.args, now, fault);
    } else if cmd.name == "stop" {
      StopPreservesWellFormed(s.table, uid, now, fault);
      StopEvolves(s.table, uid, now, fault);
    }
  }

  /** Every step keeps the invariant, and the table only evolves as the
      store's lifecycle allows. */
  lemma StepPreservesInvariant(authorizedUsers: map<int, bool>, s: BotState, u: Update, now: Timestamp, fault: Fault)
    requires BotInvariant(authorizedUsers, s)
    ensures BotInvariant(authorizedUsers, Step(authorizedUsers, s, u, now, fault).state)
    ensures Evolves(s.table, Step(authorizedUsers, s, u, now, fault).state.table)
  {
    if u.message.Some? {
      var m := u.message.value;
      PendingNotePreservesInvariant(authorizedUsers, s, m.fromId, m.text, now, fault);
      if m.command.Some? && IsAuthorized(authorizedUsers, m.fromId) {
        CommandPreservesInvariant(authorizedUsers, s, m.fromId, m.command.value, now, fault);
      }
    }
  }

  /** Any stream of updates keeps the invariant, so no user ever has two
      active entries, and the table only evolves. */
  lemma {:induction false} RunPreservesInvariant(authorizedUsers: map<int, bool>, s: BotState, events: seq<Event>)
    requires BotInvariant(authorizedUsers, s)
    ensures BotInvariant(authorizedUsers, Run(authorizedUsers, s, events).state)
    ensures AtMostOneActive(Run(authorizedUsers, s, events).state.table.entries)
    ensures Evolves(s.table, Run(authorizedUsers, s, events).state.table)
  {
    if events != [] {
      var n := |events| - 1;
      RunPreservesInvariant(authorizedUsers, s, events[..n]);
      var prev := Run(authorizedUsers, s, events[..n]);
      StepPreservesInvariant(authorizedUsers, prev.state, events[n].update, events[n].now, events[n].fault);
      EvolvesTransitive(s.table, prev.state.table, Run(authorizedUsers, s, events).state.table);
    }
  }

  /** The first update of the two-message exchanges below: /start without
      arguments only sets the marker. */
  lemma BareStartPrompts(authorizedUsers: map<int, bool>, s: BotState, userId: int, t1: Timestamp)
    requires IsAuthorized(authorizedUsers, userId) && !HasPendingNote(s.pendingNotes, userId)
    ensures Run(authorizedUsers, s, [Event(Update(Some(Message(userId, "/start", Some(Command("start", ""))))), t1, NoFault)])
         == RunResult(BotState(s.pendingNotes[userId := true], s.table), [NotePrompt])
  {
    var e1 := Event(Update(Some(Message(userId, "/start", Some(Command("start", ""))))), t1, NoFault);
    assert [e1][..0] == [];
  }

  /** A /start without arguments followed by a /stop: since the marker is
      checked before commands, the text "/stop" becomes the note of a new
      entry, which keeps running. */
  lemma StartThenStop(authorizedUsers: map<int, bool>, s: BotState, userId: int, t1: Timestamp, t2: Timestamp)
    requires IsAuthorized(authorizedUsers, userId) && !HasPendingNote(s.pendingNotes, userId)
    requires !HasActive(s.table.entries, Helpers.FormatInt(userId)) && s.table.nextId <= Helpers.MaxInt64
    ensures var r := Run(authorizedUsers, s, [
        Event(Update(Some(Message(userId, "/start", Some(Command("start", ""))))), t1, NoFault),
        Event(Update(Some(Message(userId, "/stop", Some(Command("stop", ""))))), t2, NoFault)]);
      && r.sent == [NotePrompt, StartedWithNote("/stop")]
      && r.state.pendingNotes == s.pendingNotes
      && r.state.table == Table(s.table.entries + [NewEntry(s.table.nextId, Helpers.FormatInt(userId), "/stop", t2)], s.table.nextId + 1)
  {
    var e1 := Event(Update(Some(Message(userId, "/start", Some(Command("start", ""))))), t1, NoFault);
    var e2 := Event(Update(Some(Message(userId, "/stop", Some(Command("stop", ""))))), t2, NoFault);
    assert [e1, e2][..1] == [e1];
    BareStartPrompts(authorizedUsers, s, userId, t1);
    assert s.pendingNotes[userId := true] - {userId} == s.pendingNotes;
  }

  /** A /start without arguments answered with "x" starts an entry without
      a note, and the reply is the one for a start with arguments. */
  lemma StartWithoutNote(authorizedUsers: map<int, bool>, s: BotState, userId: int, t1: Timestamp, t2: Timestamp)
    requires IsAuthorized(authorizedUsers, userId) && !HasPendingNote(s.pendingNotes, userId)
    requires !HasActive(s.table.entries, Helpers.FormatInt(userId)) && s.table.nextId <= Helpers.MaxInt64
    ensures var r := Run(authorizedUsers, s, [
        Event(Update(Some(Message(userId, "/start", Some(Command("start", ""))))), t1, NoFault),
        Event(Update(Some(Message(userId, "x", None))), t2, NoFault)]);
      && r.sent == [NotePrompt, StartedWithNote("")]
      && ReplyText(r.sent[1]) == ReplyText(Started)
      && r.state.pendingNotes == s.pendingNotes
      && r.state.table == Table(s.table.entries + [NewEntry(s.table.nextId, Helpers.FormatInt(userId), "", t2)], s.table.nextId + 1)
  {
    var e1 := Event(Update(Some(Message(userId, "/start", Some(Command("start", ""))))), t1, NoFault);
    var e2 := Event(Update(Some(Message(userId, "x", None))), t2, NoFault);
    assert [e1, e2][..1] == [e1];
    BareStartPrompts(authorizedUsers, s, userId, t1);
    assert s.pendingNotes[userId := true] - {userId} == s.pendingNotes;
    StartedReplies("");
  }

  // ---------------------------------------------------------------------
  // The bot
  // ---------------------------------------------------------------------

  /** The texts of a sequence of replies. */
  function Texts(rs: seq<Reply>): (r: seq<string>)
    ensures |r| == |rs| && forall i :: 0 <= i < |rs| ==> r[i] == ReplyText(rs[i])
  {
    seq(|rs|, i requires 0 <= i < |rs| => ReplyText(rs[i]))
  }

  lemma TextsSnoc(rs: seq<Reply>, r: Reply)
    ensures Texts(rs + [r]) == Texts(rs) + [ReplyText(r)]
  {
    assert Texts(rs + [r])[..|rs|] == Texts(rs);
  }

  class Bot {
    const authorizedUsers: map<int, bool>
    const db: Database
    var pendingNotes: map<int, bool>

    function State(): BotState
      reads this, db
    {
      BotState(pendingNotes, db.State())
    }

    ghost predicate Valid()
      reads this, db
    {
      db.Valid() && BotInvariant(authorizedUsers, State())
    }

    /** NewTelegramBot: the allow-list from the configured ids, and no
        pending markers. */
    constructor (users: seq<int>, db: Database)
      requires db.Valid()
      ensures Valid()
      ensures authorizedUsers == AllowList(users) && this.db == db && pendingNotes == map[]
    {
      var allowed: map<int, bool> := map[];
      var i := 0;
      while i < |users|
        invariant 0 <= i <= |users|
        invariant allowed == AllowList(users[..i])
      {
        assert users[..i + 1] == users[..i] + [users[i]];
        allowed := allowed[users[i] := true];
        i := i + 1;
      }
      assert users[..i] == users;
      authorizedUsers := allowed;
      this.db := db;
      pendingNotes := map[];
    }

    method ProcessPendingNote(note: string, userId: int, now: Timestamp, fault: Fault) returns (reply: string)
      requires Valid()
      modifies this, db
      ensures Valid() && db.tokens == old(db.tokens)
      ensures State() == PendingNoteStep(old(State()), userId, note, now, fault).state
      ensures reply == ReplyText(PendingNoteStep(old(State()), userId, note, now, fault).reply)
    {
      PendingNotePreservesInvariant(authorizedUsers, State(), userId, note, now, fault);
      ghost var h := PendingNoteStep(State(), userId, note, now, fault);
      var text := note;
      if text == "x" {
        text := "";
      }
      var err := db.StartTracking(Helpers.FormatInt(userId), text, now, fault);
      if err.Some? {
        assert h.reply == StoreFailed(err.value);
        reply := ErrorText(err.value);
        pendingNotes := pendingNotes - {userId};
        return;
      }
      assert h.reply == StartedWithNote(text);
      var message := StartedPrefix;
      if text != "" {
        message := message + (" Note is: " + text);
      } else {
        assert message + "" == message;
      }
      message := message + StartedSuffix;
      reply := message;
      pendingNotes := pendingNotes - {userId};
    }

    method HandleCommand(userId: int, cmd: Command, now: Timestamp, fault: Fault) returns (reply: string)
      requires Valid() && IsAuthorized(authorizedUsers, userId)
      modifies this, db
      ensures Valid() && db.tokens == old(db.tokens)
      ensures State() == CommandStep(old(State()), userId, cmd, now, fault).state
      ensures reply == ReplyText(CommandStep(old(State()), userId, cmd, now, fault).reply)
    {
      CommandPreservesInvariant(authorizedUsers, State(), userId, cmd, now, fault);
      ghost var s := State();
      ghost var h := CommandStep(s, userId, cmd, now, fault);
      var uid := Helpers.FormatInt(userId);
      var out: Reply;
      if cmd.name == "start" {
        assert cmd == Command("start", cmd.args);
        StartCommandEffects(s, userId, cmd.args, now, fault);
        if |cmd.args| == 0 {
          pendingNotes := pendingNotes[userId := true];
          out := NotePrompt;
        } else {
          var err := db.StartTracking(uid, cmd.args, now, fault);
          out := if err.Some? then StoreFailed(err.value) else Started;
          assert db.State() == h.state.table;
        }
      } else if cmd.name == "stop" {
        assert cmd == Command("stop", cmd.args);
        StopCommandEffects(s, userId, cmd.args, now, fault);
        var _, err := db.StopTracking(uid, now, fault);
        assert db.State() == h.state.table;
        if err.Some? {
          out := StoreFailed(err.value);
        } else {
          out := Stopped;
          pendingNotes := pendingNotes - {userId};
        }
      } else if cmd.name == "help" {
        out := Help;
      } else {
        out := UnknownCommand;
      }
      assert State() == h.state && out == h.reply;
      reply := ReplyText(out);
    }

    /** The body of the update loop in Start. */
    method HandleUpdate(update: Update, now: Timestamp, fault: Fault) returns (reply: Option<string>)
      requires Valid()
      modifies this, db
      ensures Valid() && db.tokens == old(db.tokens)
      ensures State() == Step(authorizedUsers, old(State()), update, now, fault).state
      ensures reply == match Step(authorizedUsers, old(State()), update, now, fault).reply
                       case None => None
                       case Some(r) => Some(ReplyText(r))
    {
      ghost var s := State();
      if update.message.None? {
        return None;
      }
      var message := update.message.value;
      var senderId := message.fromId;
      assert update == Update(Some(Message(senderId, message.text, message.command)));
      if !IsAuthorized(authorizedUsers, senderId) {
        return Some(ReplyText(Unauthorized(senderId)));
      }
      if HasPendingNote(pendingNotes, senderId) {
        PendingNoteWins(authorizedUsers, s, senderId, message.text, message.command, None, now, fault);
        var text := ProcessPendingNote(message.text, senderId, now, fault);
        return Some(text);
      }
      if message.command.Some? {
        assert Step(authorizedUsers, s, update, now, fault)
            == Replied(CommandStep(s, senderId, message.command.value, now, fault));
        var text := HandleCommand(senderId, message.command.value, now, fault);
        return Some(text);
      }
      return None;
    }

    /** Start: the update loop, here over a finite stream of updates; the
        result is the texts sent, in order. */
    method Start(events: seq<Event>) returns (sent: seq<string>)
      requires Valid()
      modifies this, db
      ensures Valid() && db.tokens == old(db.tokens)
      ensures State() == Run(authorizedUsers, old(State()), events).state
      ensures sent == Texts(Run(authorizedUsers, old(State()), events).sent)
    {
      ghost var initial := State();
      sent := [];
      var i := 0;
      while i < |events|
        invariant 0 <= i <= |events|
        invariant Valid() && db.tokens == old(db.tokens)
        invariant State() == Run(authorizedUsers, initial, events[..i]).state
        invariant sent == Texts(Run(authorizedUsers, initial, events[..i]).sent)
      {
        ghost var before := Run(authorizedUsers, initial, events[..i]);
        ghost var step := Step(authorizedUsers, State(), events[i].update, events[i].now, events[i].fault);
        assert events[..i + 1][..i] == events[..i];
        assert Run(authorizedUsers, initial, events[..i + 1])
            == RunResult(step.state, before.sent + (if step.reply.Some? then [step.reply.value] else []));
        var reply := HandleUpdate(events[i].update, events[i].now, events[i].fault);
        if reply.Some? {
          sent := sent + [reply.value];
          TextsSnoc(before.sent, step.reply.value);
        } else {
          assert before.sent + [] == before.sent;
        }
        i := i + 1;
      }
      assert events[..i] == events;
    }
  }
}
