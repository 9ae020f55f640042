/**
 * The message `sendDiscordWebhook` composes (server.js:92-105). Delivery
 * (`axios.post`) and its swallowed errors are not modelled: a notification is
 * recorded as the address and the body it would be posted with.
 */
module Notification {
  import opened Text

  datatype Notice = Notice(url: string, content: string)

  /** The title line and the label of the game line. */
  const Heading := "**Game Session Scheduled!**\n\U{1F4C5} Game: "

  /**
   * The announcement: the title, then the game name, the chosen day and the
   * assigned players joined with ", " in roster order, one line each.
   */
  function BaseMessage(gameName: string, day: string, players: seq<string>): (r: string)
    ensures |r| == |Heading| + |gameName| + |"\n\U{1F4C6} Date: "| + |day| + |"\n\U{1F465} Players: "| + |Join(players, ", ")|
    ensures r[..|Heading| + |gameName|] == Heading + gameName
    ensures r[|Heading| + |gameName|..|Heading| + |gameName| + |"\n\U{1F4C6} Date: "| + |day|] == "\n\U{1F4C6} Date: " + day
    ensures r[|r| - |Join(players, ", ")| - |"\n\U{1F465} Players: "|..|r| - |Join(players, ", ")|] == "\n\U{1F465} Players: "
    ensures r[|r| - |Join(players, ", ")|..] == Join(players, ", ")
    ensures players != [] ==> r[|r| - |Join(players, ", ")|..][..|players[0]|] == players[0]
  {
    Heading + gameName
    + "\n\U{1F4C6} Date: " + day
    + "\n\U{1F465} Players: " + Join(players, ", ")
  }

  /** A non-empty mention goes first, separated by a blank line. */
  function FullMessage(mention: string, base: string): (r: string)
    ensures |r| >= |base| && r[|r| - |base|..] == base
    ensures Truthy(mention) ==>
      |r| == |mention| + 2 + |base| && r[..|mention|] == mention && r[|mention|..|mention| + 2] == "\n\n"
    ensures !Truthy(mention) ==> r == base
  {
    if Truthy(mention) then mention + "\n\n" + base else base
  }
}
