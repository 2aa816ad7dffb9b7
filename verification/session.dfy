/**
  The host application around the game: chat and gift intake, the room
  statistics, the cross-round leaderboard, the gift-alert queue and the
  connect/reconnect id handling. The game component is driven through its
  steps; a step's winner report is merged into the leaderboard.

  The game component exists only while the game page is shown, that is from
  the first `tiktokConnected` event after a connect until the user
  disconnects. Without it, guesses, `!skip` and the game's timers go
  nowhere, and a new game page starts a fresh, idle game.
 */
module Session {
  import opened Types
  import opened Sums
  import Round
  import Leaderboard
  import Alerts
  import Commands
  import Connection
  import Text

  /** The connection message, without its wording. */
  datatype Notice = Prompt | ConnectingTo(name: string) | ReconnectingTo(name: string) | Connected | DisconnectedByUser

  datatype Session = Session(
    game: Round.Game,
    mounted: bool,                // `hasConnectedOnce`: the game page, and with it the game, is shown
    leaderboard: seq<LeaderboardEntry>,
    chat: seq<ChatMessage>,       // newest first
    gifts: seq<GiftMessage>,      // newest first
    stats: RoomStats,
    alerts: Alerts.AlertState,
    simulation: bool,
    lastUniqueId: string,         // the id of the last connect, `sim_`-prefixed in simulation mode
    notice: Notice,
    socket: Option<string>,       // the id the live feed was last asked to connect to
    toast: Option<Toast>)

  /** A gift event as it arrives: the picture may sit in one of three places. */
  datatype RawGift = RawGift(
    user: TikTokUser,
    giftId: int,
    giftName: string,
    diamondCount: int,
    repeatCount: int,
    repeatEnd: bool,
    describe: string,
    giftPictureUrl: Option<string>,
    imageUrlList: Option<seq<string>>,      // `gift.gift_image.url_list`
    altImageUrlList: Option<seq<string>>)   // `gift.giftImage.urlList`

  datatype Event =
    | Chat(msg: ChatMessage, now: int)
    | Gift(raw: RawGift)
    | AlertTimer
    | Connect(uniqueId: string)
    | FeedConnected
    | Reconnect
    | Disconnect
    | SimulationSwitched(on: bool)
    | GameEvent(e: Round.Event)

  function Initial(): Session {
    Session(Round.Initial(), false, [], [], [], RoomStats(0, 0, 0), Alerts.NoAlerts, false, "", Prompt, None, None)
  }

  /** What the session keeps true between events. */
  ghost predicate Inv(s: Session) {
    && Round.Inv(s.game)
    && (!s.mounted ==> s.game == Round.Initial())
    && Leaderboard.UniqueIds(s.leaderboard)
    && Leaderboard.Descending(s.leaderboard)
    && |s.chat| <= ChatHistoryCap
    && |s.gifts| <= GiftHistoryCap
    && Alerts.Settled(s.alerts)
  }

  lemma InitialInv()
    ensures Inv(Initial())
  {
    Round.InitialInv();
  }

  // ---------------------------------------------------------------- histories

  /** `[x, ...history.slice(0, cap - 1)]`: the newest item first, at most `cap` kept. */
  function Push<T>(history: seq<T>, x: T, cap: nat): (r: seq<T>)
    requires cap > 0
    ensures |r| == if |history| < cap then |history| + 1 else cap
    ensures r[0] == x && r[1..] == history[..|r| - 1]
  {
    [x] + history[..if |history| < cap - 1 then |history| else cap - 1]
  }

  function Reverse<T>(s: seq<T>): (r: seq<T>)
    ensures |r| == |s|
    ensures forall i :: 0 <= i < |s| ==> r[i] == s[|s| - 1 - i]
  {
    if |s| == 0 then [] else [s[|s| - 1]] + Reverse(s[..|s| - 1])
  }

  /** The history after the items of `items` arrive one by one. */
  function PushAll<T>(history: seq<T>, items: seq<T>, cap: nat): seq<T>
    requires cap > 0
  {
    if |items| == 0 then history else Push(PushAll(history, items[..|items| - 1], cap), items[|items| - 1], cap)
  }

  /** A history keeps exactly the `cap` newest items, newest first. */
  lemma {:induction false} HistoryKeepsNewest<T>(items: seq<T>, cap: nat)
    requires cap > 0
    ensures PushAll([], items, cap) == Reverse(items)[..if |items| < cap then |items| else cap]
  {
    if |items| > 0 {
      var front := items[..|items| - 1];
      HistoryKeepsNewest(front, cap);
      var r := PushAll([], items, cap);
      var want := Reverse(items)[..if |items| < cap then |items| else cap];
      assert |r| == |want|;
      forall i | 0 <= i < |r| ensures r[i] == want[i] {
        if i > 0 {
          assert r[i] == r[1..][i - 1];
          assert Reverse(front)[i - 1] == front[|front| - 1 - (i - 1)];
        }
      }
    }
  }

  // ---------------------------------------------------------------- the game's steps

  /** A game step: its winner report goes to the leaderboard, its toast is shown. */
  function ApplyStep(s: Session, st: Round.Step): Session {
    s.(game := st.game,
       leaderboard := if st.report.Some? then Leaderboard.Merge(s.leaderboard, st.report.value) else s.leaderboard,
       toast := if st.toast.Some? then st.toast else s.toast)
  }

  // ---------------------------------------------------------------- chat

  /**
    The `!rank` reply: the 1-based position of the sender's first entry
    with that entry's nickname and score, or a not-found message naming the
    sender.
   */
  function RankReply(lb: seq<LeaderboardEntry>, msg: ChatMessage): (t: Toast)
    ensures t.RankFound? || t.RankNotFound?
    ensures t.RankNotFound? <==> msg.user.userId !in Leaderboard.Ids(lb)
    ensures t.RankNotFound? ==> t.nickname == msg.user.nickname
    ensures t.RankFound? ==>
      && 1 <= t.rank <= |lb|
      && lb[t.rank - 1].user.userId == msg.user.userId
      && (forall j :: 0 <= j < t.rank - 1 ==> lb[j].user.userId != msg.user.userId)
      && t.nickname == lb[t.rank - 1].user.nickname
      && t.score == lb[t.rank - 1].score
  {
    var found := Leaderboard.Rank(lb, msg.user.userId);
    if found.Some? then
      var k := found.value.0;
      RankFound(lb[k - 1].user.nickname, k, found.value.1)
    else RankNotFound(msg.user.nickname)
  }

  /**
    `handleChat`: every message enters the chat history. `!next` stops
    there: with a game shown, the method it calls does not exist on the game
    and the call throws. `!skip` from a moderator ends a running round;
    `!rank` shows the sender's position and changes nothing else; anything
    else is handed to the game as a guess. Without a game shown, `!skip` and
    guesses have no effect.
   */
  function HandleChat(s: Session, msg: ChatMessage, now: int): (r: Session)
    ensures r.chat == Push(s.chat, msg, ChatHistoryCap)
    ensures Commands.Parse(msg.comment) == Commands.NextWord ==> r == s.(chat := r.chat)
    ensures Commands.Parse(msg.comment) == Commands.Rank ==>
      r == s.(chat := r.chat, toast := Some(RankReply(s.leaderboard, msg)))
    ensures Commands.Parse(msg.comment) == Commands.Skip ==>
      r.(game := s.game, leaderboard := s.leaderboard) == s.(chat := r.chat)
    ensures Commands.Parse(msg.comment).GuessWord? && s.mounted ==>
      r == ApplyStep(s.(chat := r.chat), Round.HandleGuess(s.game, Commands.Parse(msg.comment).word, msg, now))
    ensures (Commands.Parse(msg.comment).GuessWord? || Commands.Parse(msg.comment) == Commands.Skip) && !s.mounted ==>
      r == s.(chat := r.chat)
  {
    Obey(s.(chat := Push(s.chat, msg, ChatHistoryCap)), msg, Commands.Parse(msg.comment), now)
  }

  /** What a logged chat message does once it is read as command `c`. */
  function Obey(s: Session, msg: ChatMessage, c: Commands.Command, now: int): (r: Session)
    ensures r.chat == s.chat
    ensures c == Commands.NextWord ==> r == s
    ensures c == Commands.Rank ==> r == s.(toast := Some(RankReply(s.leaderboard, msg)))
    ensures c == Commands.Skip ==> r.(game := s.game, leaderboard := s.leaderboard) == s
    ensures c.GuessWord? && s.mounted ==> r == ApplyStep(s, Round.HandleGuess(s.game, c.word, msg, now))
    ensures (c.GuessWord? || c == Commands.Skip) && !s.mounted ==> r == s
  {
    match c
    case NextWord => s
    case Skip =>
      if s.mounted && Commands.IsModerator(msg.user.uniqueId) then ApplyStep(s, Round.ForceEndRound(s.game)) else s
    case Rank => s.(toast := Some(RankReply(s.leaderboard, msg)))
    case GuessWord(w) => if s.mounted then ApplyStep(s, Round.HandleGuess(s.game, w, msg, now)) else s
  }

  /**
    `!skip` changes the round exactly when a moderator sends it during a
    running round of a shown game; the round is then solved and its
    winners, possibly none, are merged into the leaderboard.
   */
  lemma SkipNeedsModerator(s: Session, msg: ChatMessage, now: int)
    requires Commands.Parse(msg.comment) == Commands.Skip
    ensures var r := HandleChat(s, msg, now);
      if s.mounted && Commands.IsModerator(msg.user.uniqueId) && s.game.state == Running then
        && r.game == s.game.(state := Solved)
        && r.leaderboard == Leaderboard.Merge(s.leaderboard, s.game.winners)
      else r.game == s.game && r.leaderboard == s.leaderboard
  {
  }

  // ---------------------------------------------------------------- gifts

  predicate Truthy(o: Option<string>) {
    o.Some? && o.value != ""
  }

  /** `list?.[0]`. */
  function FirstOf(list: Option<seq<string>>): Option<string> {
    if list.Some? && |list.value| > 0 then Some(list.value[0]) else None
  }

  /** `a || b || … || ''` over optional strings. */
  function FirstTruthy(candidates: seq<Option<string>>): (url: string)
    ensures url == "" <==> forall i :: 0 <= i < |candidates| ==> !Truthy(candidates[i])
    ensures url != "" ==> exists i :: 0 <= i < |candidates| && candidates[i] == Some(url)
                                      && forall j :: 0 <= j < i ==> !Truthy(candidates[j])
  {
    if |candidates| == 0 then ""
    else if Truthy(candidates[0]) then candidates[0].value
    else
      var url := FirstTruthy(candidates[1..]);
      assert forall i :: 0 < i < |candidates| ==> candidates[i] == candidates[1..][i - 1];
      url
  }

  /** The picture URL: the first non-empty of the three places, or the empty string. */
  function PictureUrl(raw: RawGift): string {
    FirstTruthy([raw.giftPictureUrl, FirstOf(raw.imageUrlList), FirstOf(raw.altImageUrlList)])
  }

  function Normalize(raw: RawGift): GiftMessage {
    GiftMessage(raw.user, raw.giftId, raw.giftName, PictureUrl(raw),
                raw.diamondCount, raw.repeatCount, raw.repeatEnd, raw.describe)
  }

  /** The diamonds a gift event adds to the room total: only events that do not end a combo count. */
  function DiamondsAdded(g: GiftMessage): int {
    if !g.repeatEnd && g.diamondCount > 0 then g.diamondCount * g.repeatCount else 0
  }

  /**
    `handleGift`: the room total grows by `diamondCount × repeatCount`
    exactly for events with diamonds that do not end their combo; every
    event enters the gift history; events with diamonds join the alert
    queue, whether or not they end their combo.
   */
  function HandleGift(s: Session, raw: RawGift): (r: Session)
    requires Alerts.Consistent(s.alerts)
    ensures r.stats.diamondsCount - s.stats.diamondsCount
            == (if !raw.repeatEnd && raw.diamondCount > 0 then raw.diamondCount * raw.repeatCount else 0)
    ensures r.stats.viewerCount == s.stats.viewerCount && r.stats.likeCount == s.stats.likeCount
    ensures r.gifts == Push(s.gifts, Normalize(raw), GiftHistoryCap)
    ensures raw.diamondCount > 0 ==>
      Alerts.Settled(r.alerts) && Alerts.Showing(r.alerts) == Alerts.Showing(s.alerts) + [Normalize(raw)]
    ensures raw.diamondCount <= 0 ==> r.alerts == s.alerts
    ensures r.(stats := s.stats, gifts := s.gifts, alerts := s.alerts) == s
  {
    var g := Normalize(raw);
    s.(stats := s.stats.(diamondsCount := s.stats.diamondsCount + DiamondsAdded(g)),
       gifts := Push(s.gifts, g, GiftHistoryCap),
       alerts := Alerts.Enqueue(s.alerts, g))
  }

  /** The 5-second timer of the visible gift alert. */
  function AlertExpired(s: Session): (r: Session)
    requires Alerts.Consistent(s.alerts)
    ensures s.alerts.visible ==>
      Alerts.Settled(r.alerts) && Alerts.Showing(r.alerts) == Alerts.Showing(s.alerts)[1..]
    ensures r.(alerts := s.alerts) == s
  {
    s.(alerts := Alerts.Expire(s.alerts))
  }

  // ---------------------------------------------------------------- connection

  /**
    `handleConnect`: an empty id only shows a toast; otherwise the feed is
    asked for the (possibly `sim_`-prefixed) id and the chat, gifts, room
    statistics and leaderboard start over.
   */
  function HandleConnect(s: Session, uniqueId: string): (r: Session)
    ensures uniqueId == "" ==> r == s.(toast := Some(EmptyUsername))
    ensures uniqueId != "" ==>
      && r.lastUniqueId == Connection.ConnectId(uniqueId, s.simulation)
      && r.socket == Some(r.lastUniqueId)
      && r.notice == ConnectingTo(uniqueId)
      && r.chat == [] && r.gifts == [] && r.stats == RoomStats(0, 0, 0) && r.leaderboard == []
      && r.game == s.game && r.mounted == s.mounted
      && r.alerts == s.alerts && r.simulation == s.simulation && r.toast == s.toast
  {
    if uniqueId == "" then s.(toast := Some(EmptyUsername))
    else
      var id := Connection.ConnectId(uniqueId, s.simulation);
      s.(lastUniqueId := id, chat := [], gifts := [], stats := RoomStats(0, 0, 0), leaderboard := [],
         notice := ConnectingTo(uniqueId), socket := Some(id))
  }

  /** `handleReconnect`: connects to the last id again, if there is one. */
  function HandleReconnect(s: Session): (r: Session)
    ensures s.lastUniqueId == "" ==> r == s
    ensures s.lastUniqueId != "" ==>
      r == s.(socket := Some(s.lastUniqueId), notice := ReconnectingTo(Connection.ShownOnReconnect(s.lastUniqueId)))
  {
    if s.lastUniqueId == "" then s
    else s.(socket := Some(s.lastUniqueId), notice := ReconnectingTo(Connection.ShownOnReconnect(s.lastUniqueId)))
  }

  /**
    `handleDisconnect`: the feed is closed, the last id forgotten and the
    connection page shown again, which discards the game and its timers.
   */
  function HandleDisconnect(s: Session): (r: Session)
    ensures r.socket == None && r.lastUniqueId == "" && r.notice == DisconnectedByUser
    ensures !r.mounted && r.game == Round.Initial()
    ensures r.(socket := s.socket, lastUniqueId := s.lastUniqueId, notice := s.notice,
               mounted := s.mounted, game := s.game) == s
  {
    s.(socket := None, lastUniqueId := "", notice := DisconnectedByUser, mounted := false, game := Round.Initial())
  }

  /**
    The feed reports the connection (`tiktokConnected`): the game page is
    shown, and when it was not shown before, with a fresh game.
   */
  function HandleFeedConnected(s: Session): (r: Session)
    ensures r.mounted && r.notice == Connected
    ensures s.mounted ==> r.game == s.game
    ensures !s.mounted ==> r.game == Round.Initial()
    ensures r.(mounted := s.mounted, notice := s.notice, game := s.game) == s
  {
    s.(mounted := true, notice := Connected, game := if s.mounted then s.game else Round.Initial())
  }

  /**
    Reconnecting after a connect re-opens the same feed and names the id
    that was typed, in simulation mode or when the id contains no `sim_`.
   */
  lemma ReconnectRepeatsConnect(s: Session, uniqueId: string)
    requires uniqueId != ""
    requires s.simulation || forall j :: !Text.OccursAt(uniqueId, Connection.SimPrefix, j)
    ensures var c := HandleConnect(s, uniqueId);
      HandleReconnect(c) == c.(notice := ReconnectingTo(uniqueId))
  {
    Connection.ReconnectShowsTypedName(uniqueId, s.simulation);
    var id := Connection.ConnectId(uniqueId, s.simulation);
    if s.simulation {
      assert id != "";
    }
  }

  /** After a disconnect, reconnecting does nothing. */
  lemma NoReconnectAfterDisconnect(s: Session)
    ensures HandleReconnect(HandleDisconnect(s)) == HandleDisconnect(s)
  {
  }

  /**
    Disconnecting and connecting to another stream starts over: the game
    is a fresh idle one whose timers are not running, so nothing won on the
    old stream is ever credited to the new stream's empty leaderboard.
   */
  lemma NewStreamStartsAfresh(s: Session, uniqueId: string)
    requires uniqueId != ""
    ensures var c := HandleFeedConnected(HandleConnect(HandleDisconnect(s), uniqueId));
      && c.mounted && c.game == Round.Initial() && c.leaderboard == []
      && ApplyStep(c, Round.Tick(c.game)).leaderboard == []
  {
    var d := HandleDisconnect(s);
    var e := HandleConnect(d, uniqueId);
    assert !e.mounted && e.leaderboard == [];
  }

  // ---------------------------------------------------------------- all events

  function Next(s: Session, e: Event): Session
    requires Alerts.Consistent(s.alerts)
  {
    match e
    case Chat(msg, now) => HandleChat(s, msg, now)
    case Gift(raw) => HandleGift(s, raw)
    case AlertTimer => AlertExpired(s)
    case Connect(uniqueId) => HandleConnect(s, uniqueId)
    case Reconnect => HandleReconnect(s)
    case Disconnect => HandleDisconnect(s)
    case FeedConnected => HandleFeedConnected(s)
    case SimulationSwitched(on) => s.(simulation := on)
    case GameEvent(ge) => if s.mounted then ApplyStep(s, Round.Next(s.game, ge)) else s
  }

  lemma ApplyStepKeepsInv(s: Session, st: Round.Step)
    requires Inv(s) && s.mounted && Round.Inv(st.game)
    ensures Inv(ApplyStep(s, st))
  {
  }

  lemma LoggedChatKeepsInv(s: Session, msg: ChatMessage)
    requires Inv(s)
    ensures Inv(s.(chat := Push(s.chat, msg, ChatHistoryCap)))
  {
  }

  lemma ChatKeepsInv(s: Session, msg: ChatMessage, now: int)
    requires Inv(s)
    ensures Inv(HandleChat(s, msg, now))
  {
    LoggedChatKeepsInv(s, msg);
    ObeyKeepsInv(s.(chat := Push(s.chat, msg, ChatHistoryCap)), msg, Commands.Parse(msg.comment), now);
  }

  lemma ObeyKeepsInv(s: Session, msg: ChatMessage, c: Commands.Command, now: int)
    requires Inv(s)
    ensures Inv(Obey(s, msg, c, now))
  {
    match c
    case GuessWord(w) =>
      if s.mounted {
        Round.NextKeepsInv(s.game, Round.GuessMade(w, msg, now));
        ApplyStepKeepsInv(s, Round.HandleGuess(s.game, w, msg, now));
      }
    case Skip =>
      if s.mounted {
        Round.NextKeepsInv(s.game, Round.ForceEnd);
        ApplyStepKeepsInv(s, Round.ForceEndRound(s.game));
      }
    case _ =>
  }

  lemma NextKeepsInv(s: Session, e: Event)
    requires Inv(s)
    ensures Inv(Next(s, e))
  {
    match e
    case Chat(msg, now) => ChatKeepsInv(s, msg, now);
    case Gift(raw) => GiftKeepsInv(s, raw);
    case Connect(uniqueId) => ConnectKeepsInv(s, uniqueId);
    case Disconnect => DisconnectKeepsInv(s);
    case FeedConnected => FeedConnectedKeepsInv(s);
    case GameEvent(ge) => GameEventKeepsInv(s, ge);
    case AlertTimer => AlertKeepsInv(s);
    case Reconnect => ReconnectKeepsInv(s);
    case SimulationSwitched(on) => SimulationKeepsInv(s, on);
  }

  lemma AlertKeepsInv(s: Session)
    requires Inv(s)
    ensures Inv(AlertExpired(s))
  {
  }

  lemma ReconnectKeepsInv(s: Session)
    requires Inv(s)
    ensures Inv(HandleReconnect(s))
  {
  }

  lemma SimulationKeepsInv(s: Session, on: bool)
    requires Inv(s)
    ensures Inv(s.(simulation := on))
  {
  }

  lemma GiftKeepsInv(s: Session, raw: RawGift)
    requires Inv(s)
    ensures Inv(HandleGift(s, raw))
  {
    assert |Push(s.gifts, Normalize(raw), GiftHistoryCap)| <= GiftHistoryCap;
  }

  lemma ConnectKeepsInv(s: Session, uniqueId: string)
    requires Inv(s)
    ensures Inv(HandleConnect(s, uniqueId))
  {
  }

  lemma DisconnectKeepsInv(s: Session)
    requires Inv(s)
    ensures Inv(HandleDisconnect(s))
  {
    Round.InitialInv();
  }

  lemma FeedConnectedKeepsInv(s: Session)
    requires Inv(s)
    ensures Inv(HandleFeedConnected(s))
  {
    Round.InitialInv();
  }

  lemma GameEventKeepsInv(s: Session, ge: Round.Event)
    requires Inv(s)
    ensures Inv(if s.mounted then ApplyStep(s, Round.Next(s.game, ge)) else s)
  {
    if s.mounted {
      Round.NextKeepsInv(s.game, ge);
      ApplyStepKeepsInv(s, Round.Next(s.game, ge));
    }
  }

  // ---------------------------------------------------------------- quirks

  /** A gift combo of `n` events counting 1, 2, …, n, then the event that ends it. */
  function Combo(s: Session, raw: RawGift, n: nat): (r: Session)
    requires Alerts.Consistent(s.alerts)
    ensures Alerts.Consistent(r.alerts)
  {
    if n == 0 then s
    else HandleGift(Combo(s, raw, n - 1), raw.(repeatCount := n, repeatEnd := false))
  }

  /**
    A combo adds `diamondCount × (1 + 2 + … + n)` to the room total: every
    running count is added, and the event that ends the combo adds nothing.
   */
  lemma {:induction false} ComboCountsEveryRunningTotal(s: Session, raw: RawGift, n: nat)
    requires Alerts.Consistent(s.alerts) && raw.diamondCount > 0
    ensures var done := HandleGift(Combo(s, raw, n), raw.(repeatCount := n, repeatEnd := true));
      done.stats.diamondsCount == s.stats.diamondsCount + raw.diamondCount * (n * (n + 1) / 2)
  {
    ComboSum(s, raw, n);
  }

  lemma {:induction false} ComboSum(s: Session, raw: RawGift, n: nat)
    requires Alerts.Consistent(s.alerts) && raw.diamondCount > 0
    ensures Combo(s, raw, n).stats.diamondsCount == s.stats.diamondsCount + raw.diamondCount * (n * (n + 1) / 2)
    decreases n
  {
    if n > 0 {
      ComboSum(s, raw, n - 1);
      var p := Combo(s, raw, n - 1);
      assert Combo(s, raw, n).stats.diamondsCount == p.stats.diamondsCount + raw.diamondCount * n;
      assert n * (n + 1) / 2 == (n - 1) * n / 2 + n by {
        assert n * (n + 1) == (n - 1) * n + 2 * n;
      }
      MulAdd(raw.diamondCount, (n - 1) * n / 2, n);
    }
  }

  lemma MulAdd(a: int, b: int, c: int)
    ensures a * (b + c) == a * b + a * c
  {
  }

  /** `n` firings of the round countdown of a shown game, each step's report merged into the leaderboard. */
  function CountdownTicks(s: Session, n: int): Session
    decreases n
  {
    if n <= 0 then s else CountdownTicks(ApplyStep(s, Round.Tick(s.game)), n - 1)
  }

  /** A guess whose step reports winners solved the round and credited them once. */
  lemma ReportingGuessSolves(s: Session, msg: ChatMessage, now: int)
    requires Inv(s) && s.mounted
    requires Commands.Parse(msg.comment).GuessWord?
    requires Round.HandleGuess(s.game, Commands.Parse(msg.comment).word, msg, now).report.Some?
    ensures var won := HandleChat(s, msg, now);
      && won.mounted && won.game.state == Solved && won.game.countdownLive && won.game.timeLeft >= 1
      && |won.game.winners| > 0
      && won.leaderboard == Leaderboard.Merge(s.leaderboard, won.game.winners)
  {
    var w := Commands.Parse(msg.comment).word;
    var st := Round.HandleGuess(s.game, w, msg, now);
    assert st == Round.Win(s.game, w, msg, now);
  }

  /** The last firing of a countdown with winners merges them into the leaderboard. */
  lemma LastTickCredits(p: Session)
    requires p.game.countdownLive && p.game.timeLeft == 1 && |p.game.winners| > 0
    ensures ApplyStep(p, Round.Tick(p.game)).leaderboard == Leaderboard.Merge(p.leaderboard, p.game.winners)
    ensures CountdownTicks(ApplyStep(p, Round.Tick(p.game)), 0).leaderboard == Leaderboard.Merge(p.leaderboard, p.game.winners)
  {
    assert Round.Tick(p.game).report == Some(p.game.winners);
  }

  /** Before its last second, a countdown firing changes neither the leaderboard nor the winners. */
  lemma EarlyTickKeepsWinners(s: Session)
    requires s.game.countdownLive && s.game.timeLeft > 1
    ensures var next := ApplyStep(s, Round.Tick(s.game));
      && next.leaderboard == s.leaderboard && next.game.winners == s.game.winners
      && next.game.countdownLive && next.game.timeLeft == s.game.timeLeft - 1
  {
    assert Round.Tick(s.game) == Round.Quiet(s.game.(timeLeft := s.game.timeLeft - 1));
  }

  /** When the countdown runs out, the winners are merged into the leaderboard again. */
  lemma {:induction false} CountdownEndReports(won: Session)
    requires won.game.countdownLive && won.game.timeLeft >= 1 && |won.game.winners| > 0
    ensures CountdownTicks(won, won.game.timeLeft).leaderboard == Leaderboard.Merge(won.leaderboard, won.game.winners)
    decreases won.game.timeLeft
  {
    var next := ApplyStep(won, Round.Tick(won.game));
    FirstTick(won, won.game.timeLeft);
    if won.game.timeLeft == 1 {
      LastTickCredits(won);
    } else {
      EarlyTickKeepsWinners(won);
      CountdownEndReports(next);
    }
  }

  /** `n` firings are one firing followed by the other `n - 1`. */
  lemma FirstTick(s: Session, n: int)
    requires n >= 1
    ensures CountdownTicks(s, n).leaderboard == CountdownTicks(ApplyStep(s, Round.Tick(s.game)), n - 1).leaderboard
  {
  }

  /**
    A round solved by a third winner credits its winners twice: once when
    it is solved, and again when its countdown, still running, reaches zero.
   */
  lemma SolvedRoundCreditedTwice(s: Session, msg: ChatMessage, now: int, userId: string)
    requires Inv(s) && s.mounted
    requires Commands.Parse(msg.comment).GuessWord?
    requires Round.HandleGuess(s.game, Commands.Parse(msg.comment).word, msg, now).report.Some?
    ensures var won := HandleChat(s, msg, now);
      && won.game.state == Solved
      && Leaderboard.UserTotal(CountdownTicks(won, won.game.timeLeft).leaderboard, userId)
         == Leaderboard.UserTotal(s.leaderboard, userId) + 2 * SumBy(won.game.winners, Leaderboard.PointsOfUser(userId))
  {
    ReportingGuessSolves(s, msg, now);
    CountdownEndReports(HandleChat(s, msg, now));
  }
}
