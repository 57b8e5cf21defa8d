/**
 * The chat controller (server/controllers/chat.js): `getChats` lists every chat and
 * `sendMessage` appends a message to one chat and updates its summary. The collection is a
 * sequence of documents, and the model assumes `Chat.find({})` returns them in that order; the
 * display time `toLocaleTimeString` produces is a parameter.
 */
module ChatController {
  import opened Outcomes
  import opened ChatModel
  import opened UserModel

  datatype ChatError = ChatNotFound   // 404 'Chat not found'

  predicate DistinctIds(chats: seq<Chat>) {
    forall i, j :: 0 <= i < j < |chats| ==> chats[i].id != chats[j].id
  }

  /** `Chat.findById(chatId)`: the position of the chat with that id. */
  function FindChat(chats: seq<Chat>, chatId: ChatId): (r: Option<nat>)
    ensures r.Some? ==> r.value < |chats| && chats[r.value].id == chatId
    ensures r.None? <==> forall i :: 0 <= i < |chats| ==> chats[i].id != chatId
  {
    if chats == [] then None
    else if chats[0].id == chatId then Some(0)
    else match FindChat(chats[1..], chatId)
      case None => None
      case Some(i) => Some(i + 1)
  }

  class ChatStore {
    var chats: seq<Chat>

    /** `_id` is unique, and every stored message passed validation. */
    ghost predicate Valid()
      reads this
    {
      DistinctIds(chats) && forall i :: 0 <= i < |chats| ==> ChatValid(chats[i])
    }

    constructor (chats0: seq<Chat>)
      requires DistinctIds(chats0) && forall i :: 0 <= i < |chats0| ==> ChatValid(chats0[i])
      ensures Valid() && chats == chats0
    {
      chats := chats0;
    }

    /** getChats: every stored chat, in store order; the caller is not consulted. */
    function GetChats(caller: ObjectId): (all: seq<Chat>)
      reads this
      ensures |all| == |chats|
      ensures forall i :: 0 <= i < |chats| ==> all[i] == chats[i]
    {
      chats
    }

    /** sendMessage. The text is not validated: a missing or empty text is appended as given. */
    method SendMessage(chatId: ChatId, text: Option<string>, time: string) returns (r: Result<Chat, ChatError>)
      requires Valid()
      modifies this
      ensures Valid()
      ensures old(FindChat(chats, chatId)).None? ==> r == Err(ChatNotFound) && chats == old(chats)
      ensures old(FindChat(chats, chatId)).Some? ==>
                var i := old(FindChat(chats, chatId)).value;
                chats == old(chats)[i := Appended(old(chats)[i], text, time)] && r == Ok(chats[i])
      ensures r.Ok? ==> |chats| == |old(chats)|
                        && forall k :: 0 <= k < |chats| && chats[k].id != chatId ==> chats[k] == old(chats)[k]
    {
      var found := FindChat(chats, chatId);
      if found.None? {
        return Err(ChatNotFound);
      }
      var i := found.value;
      var chat := chats[i];
      chat := chat.(messages := chat.messages + [Message(text, Some("me"), time)]);
      chat := chat.(lastMessage := text);
      chat := chat.(time := Some("Now"));
      chats := chats[i := chat];
      r := Ok(chat);
    }
  }
}
