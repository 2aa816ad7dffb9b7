/**
  Entities and constants shared by the round engine, the session and the
  connection limiter of the live word-guessing game.
 */
module Types {

  /** Letters in every guess (`WORD_LENGTH`). */
  const WordLength: nat := 5
  /** Points for a win at zero elapsed time (`MAX_SCORE`). */
  const MaxScore: int := 500
  /** Points lost per elapsed second (`DECAY_RATE`). */
  const DecayRate: int := 2
  /** Viewers (by `uniqueId`) whose `!skip` ends the round. */
  const Moderators: seq<string> := ["achmadsyams", "ahmadsyams.jpg"]

  /** Seconds on the round countdown. */
  const RoundDuration: int := 300
  /** Seconds on the countdown that restarts the game after `round_over`. */
  const RestartDuration: int := 10
  /** The winner count that ends a round; fixed, not configurable. */
  const WinnerCap: nat := 3

  /** Bounds on the retained chat and gift histories. */
  const ChatHistoryCap: nat := 100
  const GiftHistoryCap: nat := 50

  datatype Option<T> = None | Some(value: T)

  datatype TileStatus = Empty | Correct | Present | Absent | Pending

  datatype Tile = Tile(letter: char, status: TileStatus)

  /** A viewer as the live feed identifies them. */
  datatype TikTokUser = TikTokUser(userId: string, uniqueId: string, nickname: string, profilePictureUrl: string)

  datatype ChatMessage = ChatMessage(user: TikTokUser, comment: string)

  datatype GiftMessage = GiftMessage(
    user: TikTokUser,
    giftId: int,
    giftName: string,
    giftPictureUrl: string,
    diamondCount: int,
    repeatCount: int,
    repeatEnd: bool,
    describe: string)

  datatype RoomStats = RoomStats(viewerCount: int, likeCount: int, diamondsCount: int)

  /** A winner of the current round; the duration is kept in whole milliseconds. */
  datatype RoundWinner = RoundWinner(user: TikTokUser, durationMs: int, score: int)

  datatype LeaderboardEntry = LeaderboardEntry(user: TikTokUser, score: int)

  datatype GameState = Idle | Running | Solved | Leaderboard | Waiting | RoundOver

  /** The advisory messages the game and the session show. */
  datatype Toast =
    | NotInDictionary(word: string)
    | AlreadySolved
    | RankFound(nickname: string, rank: nat, score: int)
    | RankNotFound(nickname: string)
    | EmptyUsername
}
