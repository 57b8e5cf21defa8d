/**
 * The Chat collection (server/models/Chat.js): a chat owns an ordered list of messages and keeps
 * a summary (`lastMessage`, `time`) and an unread counter beside them.
 */
module ChatModel {
  import opened Outcomes

  /** A Mongo ObjectId of a chat, treated as an opaque value with equality. */
  type ChatId = nat

  /** The values the schema's enum allows for `sender`. */
  const Senders: set<string> := {"me", "other"}

  /** A message: `text` is an optional string, `sender` is required, `time` always has a value
      (the schema's default fills it in). */
  datatype Message = Message(text: Option<string>, sender: Option<string>, time: string)

  /** A stored chat document. */
  datatype Chat = Chat(
    id: ChatId,
    name: Option<string>,
    avatar: Option<string>,
    messages: seq<Message>,
    lastMessage: Option<string>,
    time: Option<string>,
    unread: int)

  /** Validation of a message subdocument: `sender` is present and one of the enum's values. */
  predicate MessageValid(m: Message) {
    m.sender.Some? && m.sender.value in Senders
  }

  predicate ChatValid(c: Chat) {
    forall i :: 0 <= i < |c.messages| ==> MessageValid(c.messages[i])
  }

  /** The summary reflects the newest message. */
  predicate SummaryCurrent(c: Chat) {
    |c.messages| > 0 && c.lastMessage == c.messages[|c.messages| - 1].text
  }

  /** A message as the schema builds it: `clock` is the time string the default function would
      produce at creation, used only when no `time` is supplied. */
  function NewMessage(text: Option<string>, sender: Option<string>, time: Option<string>, clock: string): (m: Message)
    ensures m.text == text && m.sender == sender
    ensures time.Some? ==> m.time == time.value
    ensures time.None? ==> m.time == clock
  {
    Message(text, sender, time.GetOr(clock))
  }

  /** A chat as the schema builds it: no messages, and `unread` is 0 unless supplied. */
  function NewChat(id: ChatId, name: Option<string>, avatar: Option<string>, lastMessage: Option<string>,
                   time: Option<string>, unread: Option<int>): (c: Chat)
    ensures c.id == id && c.messages == [] && ChatValid(c)
    ensures unread.None? ==> c.unread == 0
    ensures unread.Some? ==> c.unread == unread.value
  {
    Chat(id, name, avatar, [], lastMessage, time, unread.GetOr(0))
  }

  /** The chat after sendMessage's three updates: the message `{ text, sender: 'me', time }` is
      pushed, `lastMessage` becomes `text` and `time` becomes 'Now'. */
  function Appended(c: Chat, text: Option<string>, time: string): (r: Chat)
    ensures |r.messages| == |c.messages| + 1 && r.messages[..|c.messages|] == c.messages
    ensures r.messages[|c.messages|] == Message(text, Some("me"), time)
    ensures SummaryCurrent(r) && r.lastMessage == text
    ensures r.time == Some("Now")
    ensures r.id == c.id && r.name == c.name && r.avatar == c.avatar && r.unread == c.unread
    ensures ChatValid(c) ==> ChatValid(r)
  {
    c.(messages := c.messages + [Message(text, Some("me"), time)],
       lastMessage := text,
       time := Some("Now"))
  }

  /** The chat after a series of sendMessage calls, each given as its text and display time. */
  function AppendAll(c: Chat, sends: seq<(Option<string>, string)>): (r: Chat)
    decreases |sends|
  {
    if sends == [] then c else AppendAll(Appended(c, sends[0].0, sends[0].1), sends[1..])
  }

  /** Appends never reorder or rewrite history: after any number of sends, the original messages
      are a prefix of the chat's messages, the new ones follow in send order, and the summary
      follows the last send. */
  lemma {:induction false} AppendAllKeepsHistory(c: Chat, sends: seq<(Option<string>, string)>)
    ensures |AppendAll(c, sends).messages| == |c.messages| + |sends|
    ensures AppendAll(c, sends).messages[..|c.messages|] == c.messages
    ensures forall k :: 0 <= k < |sends| ==>
              AppendAll(c, sends).messages[|c.messages| + k] == Message(sends[k].0, Some("me"), sends[k].1)
    ensures sends != [] ==> SummaryCurrent(AppendAll(c, sends)) && AppendAll(c, sends).lastMessage == sends[|sends| - 1].0
    decreases |sends|
  {
    if sends != [] {
      var c1 := Appended(c, sends[0].0, sends[0].1);
      AppendAllKeepsHistory(c1, sends[1..]);
      var r := AppendAll(c1, sends[1..]);
      assert r.messages[..|c.messages|] == r.messages[..|c1.messages|][..|c.messages|];
      forall k | 0 <= k < |sends|
        ensures r.messages[|c.messages| + k] == Message(sends[k].0, Some("me"), sends[k].1)
      {
        if k > 0 {
          assert sends[1..][k - 1] == sends[k];
        } else {
          assert r.messages[|c.messages|] == r.messages[..|c1.messages|][|c.messages|];
        }
      }
      if |sends| == 1 {
        assert r == c1;
      }
    }
  }
}
