/** The message pipeline of server/controllers/messageController.js: the
    message collection (a sequence in insertion order), the conversation
    filter, unseen counting, seen marking, the translated views a reader
    or a live receiver gets, and the four controllers. */
module Messages {
  import opened Records
  import opened Translator
  import Users
  import Presence

  /** What reading `preferredLanguage` of a `null` user throws. */
  const NullUser: string := "Cannot read properties of null (reading 'preferredLanguage')"

  // ---------------------------------------------------------------------
  // The conversation between two users

  /** `m` went from `a` to `b` or from `b` to `a`. */
  predicate Between(m: Message, a: UserId, b: UserId)
  {
    (m.senderId == a && m.receiverId == b) || (m.senderId == b && m.receiverId == a)
  }

  /** `Message.find({$or: [{me -> peer}, {peer -> me}]})`, in store order. */
  function Conversation(s: seq<Message>, me: UserId, peer: UserId): (conv: seq<Message>)
    ensures forall m :: m in conv <==> m in s && Between(m, me, peer)
    ensures |conv| <= |s|
  {
    if s == [] then []
    else
      var rest := Conversation(s[1..], me, peer);
      assert forall m :: m in s[1..] ==> m in s;
      if Between(s[0], me, peer) then [s[0]] + rest else rest
  }

  /** The filter keeps store order: it splits over a concatenation, so a
      message appended to the store comes last in its conversation. */
  lemma {:induction false} ConversationAppend(a: seq<Message>, b: seq<Message>, me: UserId, peer: UserId)
    ensures Conversation(a + b, me, peer) == Conversation(a, me, peer) + Conversation(b, me, peer)
  {
    if a != [] {
      assert (a + b)[1..] == a[1..] + b;
      ConversationAppend(a[1..], b, me, peer);
    } else {
      assert a + b == b;
    }
  }

  /** Both participants see the same conversation. */
  lemma {:induction false} ConversationSymmetric(s: seq<Message>, me: UserId, peer: UserId)
    ensures Conversation(s, me, peer) == Conversation(s, peer, me)
  {
    if s != [] {
      ConversationSymmetric(s[1..], me, peer);
    }
  }

  // ---------------------------------------------------------------------
  // Unseen counts

  predicate UnseenFrom(m: Message, sender: UserId, receiver: UserId)
  {
    m.senderId == sender && m.receiverId == receiver && !m.seen
  }

  /** `Message.find({senderId, receiverId, seen: false}).length`. */
  function UnseenCount(s: seq<Message>, sender: UserId, receiver: UserId): (n: nat)
    ensures n <= |s|
    ensures n > 0 <==> exists i :: 0 <= i < |s| && UnseenFrom(s[i], sender, receiver)
  {
    if s == [] then 0
    else
      var rest := UnseenCount(s[1..], sender, receiver);
      assert forall i :: 1 <= i < |s| ==> s[i] == s[1..][i - 1];
      (if UnseenFrom(s[0], sender, receiver) then 1 else 0) + rest
  }

  /** A new unseen message adds one to exactly its own pair's count. */
  lemma {:induction false} UnseenCountAppend(s: seq<Message>, m: Message, sender: UserId, receiver: UserId)
    ensures UnseenCount(s + [m], sender, receiver)
            == UnseenCount(s, sender, receiver) + (if UnseenFrom(m, sender, receiver) then 1 else 0)
  {
    if s == [] {
      assert [m][1..] == [];
    } else {
      assert (s + [m])[1..] == s[1..] + [m];
      UnseenCountAppend(s[1..], m, sender, receiver);
    }
  }

  // ---------------------------------------------------------------------
  // Seen marking

  /** `Message.updateMany({senderId: sender, receiverId: receiver}, {seen: true})`. */
  function MarkedSeen(s: seq<Message>, sender: UserId, receiver: UserId): (r: seq<Message>)
    ensures |r| == |s|
  {
    if s == [] then []
    else
      var m := s[0];
      [if m.senderId == sender && m.receiverId == receiver then m.(seen := true) else m]
      + MarkedSeen(s[1..], sender, receiver)
  }

  /** Bulk marking sets the flag of every sender-to-receiver message and
      touches nothing else, not even the other fields of those messages. */
  lemma {:induction false} MarkedSeenAt(s: seq<Message>, sender: UserId, receiver: UserId, i: nat)
    requires i < |s|
    ensures var r := MarkedSeen(s, sender, receiver);
            && r[i].(seen := s[i].seen) == s[i]
            && (s[i].senderId == sender && s[i].receiverId == receiver ==> r[i].seen)
            && (!(s[i].senderId == sender && s[i].receiverId == receiver) ==> r[i] == s[i])
  {
    if i > 0 {
      MarkedSeenAt(s[1..], sender, receiver, i - 1);
    }
  }

  /** Marking twice is marking once. */
  lemma {:induction false} MarkedSeenIdempotent(s: seq<Message>, sender: UserId, receiver: UserId)
    ensures MarkedSeen(MarkedSeen(s, sender, receiver), sender, receiver) == MarkedSeen(s, sender, receiver)
  {
    if s != [] {
      MarkedSeenIdempotent(s[1..], sender, receiver);
    }
  }

  /** After bulk marking, nothing from `sender` to `receiver` is unseen. */
  lemma {:induction false} MarkedSeenClearsUnseen(s: seq<Message>, sender: UserId, receiver: UserId)
    ensures UnseenCount(MarkedSeen(s, sender, receiver), sender, receiver) == 0
  {
    if s != [] {
      MarkedSeenClearsUnseen(s[1..], sender, receiver);
    }
  }

  /** ... and every other pair's unseen count is what it was. */
  lemma {:induction false} MarkedSeenKeepsOtherCounts(s: seq<Message>, sender: UserId, receiver: UserId,
                                                     from: UserId, to: UserId)
    requires from != sender || to != receiver
    ensures UnseenCount(MarkedSeen(s, sender, receiver), from, to) == UnseenCount(s, from, to)
  {
    if s != [] {
      MarkedSeenKeepsOtherCounts(s[1..], sender, receiver, from, to);
    }
  }

  /** `Message.findByIdAndUpdate(id, {seen: true})`. */
  function SeenById(s: seq<Message>, id: MessageId): (r: seq<Message>)
    ensures |r| == |s|
  {
    if s == [] then []
    else [if s[0].id == id then s[0].(seen := true) else s[0]] + SeenById(s[1..], id)
  }

  /** Marking by id sets that message's flag and leaves everything else. */
  lemma {:induction false} SeenByIdAt(s: seq<Message>, id: MessageId, i: nat)
    requires i < |s|
    ensures var r := SeenById(s, id);
            && (s[i].id == id ==> r[i] == s[i].(seen := true))
            && (s[i].id != id ==> r[i] == s[i])
  {
    if i > 0 {
      SeenByIdAt(s[1..], id, i - 1);
    }
  }

  /** An id that is not stored changes nothing. */
  lemma {:induction false} SeenByUnknownId(s: seq<Message>, id: MessageId)
    requires forall i :: 0 <= i < |s| ==> s[i].id != id
    ensures SeenById(s, id) == s
  {
    if s != [] {
      SeenByUnknownId(s[1..], id);
    }
  }

  /** Marking the same id twice is marking it once. */
  lemma {:induction false} SeenByIdIdempotent(s: seq<Message>, id: MessageId)
    ensures SeenById(SeenById(s, id), id) == SeenById(s, id)
  {
    if s != [] {
      SeenByIdIdempotent(s[1..], id);
    }
  }

  // ---------------------------------------------------------------------
  // Translated views

  /** Detect the language of `text` and, only when it differs from `lang`,
      translate into `lang` from the detected language. */
  function Retranslation(svc: Service, text: string, lang: string): (r: Option<string>)
    ensures r.None? <==> DetectLanguage(svc, text) == lang
    ensures var d := DetectLanguage(svc, text);
            && (r.Some? && Blank(text) ==> r.value == text)
            && (r.Some? && svc.translate(text, d, lang).Fail? ==> r.value == text)
            && (r.Some? && lang != NoTranslation && !Blank(text) && svc.translate(text, d, lang).Ok?
                ==> r.value == svc.translate(text, d, lang).value)
  {
    var detected := DetectLanguage(svc, text);
    if detected != lang then Some(TranslateText(svc, text, lang, Some(detected))) else None
  }

  /** The per-message callback of `getMessages` for reader `me` with
      preference `lang` (not `default`): only text messages addressed to
      `me` whose detected language differs from `lang` get a translated
      text and an `isTranslated` field; all others are passed through. */
  function ReaderView(svc: Service, m: Message, me: UserId, lang: string): (v: View)
    ensures v.record.(text := m.text) == m
    ensures m.receiverId != me || m.text == "" ==> v == View(m, None)
    ensures v.isTranslated.None? ==> v.record == m
    ensures v.isTranslated.Some? <==> m.receiverId == me && m.text != "" && DetectLanguage(svc, m.text) != lang
    ensures v.isTranslated.Some? ==> v.isTranslated.value == (v.record.text != m.text)
    ensures v.record.text == m.text || svc.translate(m.text, DetectLanguage(svc, m.text), lang) == Ok(v.record.text)
    ensures Blank(m.text) ==> v.record.text == m.text
    ensures var d := DetectLanguage(svc, m.text);
            m.receiverId == me && lang != NoTranslation && !Blank(m.text) && d != lang && svc.translate(m.text, d, lang).Ok?
            ==> v.record.text == svc.translate(m.text, d, lang).value
    ensures var d := DetectLanguage(svc, m.text);
            svc.translate(m.text, d, lang).Fail? ==> v.record.text == m.text
  {
    if m.receiverId == me && m.text != "" then
      match Retranslation(svc, m.text, lang)
      case Some(translated) => View(m.(text := translated), Some(translated != m.text))
      case None => View(m, None)
    else View(m, None)
  }

  /** `messages.map(...)`: one view per message, in order. */
  function ReaderViews(svc: Service, conv: seq<Message>, me: UserId, lang: string): (vs: seq<View>)
    ensures |vs| == |conv|
    ensures forall i :: 0 <= i < |conv| ==> vs[i] == ReaderView(svc, conv[i], me, lang)
  {
    if conv == [] then []
    else [ReaderView(svc, conv[0], me, lang)] + ReaderViews(svc, conv[1..], me, lang)
  }

  /** The messages `getMessages` answers with: the stored records unchanged
      for a reader whose preference is `default`, else the reader views. */
  function ConversationViews(svc: Service, conv: seq<Message>, me: UserId, lang: string): (vs: seq<View>)
    ensures |vs| == |conv|
    ensures lang == NoTranslation ==> forall i :: 0 <= i < |conv| ==> vs[i] == View(conv[i], None)
    ensures lang != NoTranslation ==> forall i :: 0 <= i < |conv| ==> vs[i] == ReaderView(svc, conv[i], me, lang)
  {
    if lang == NoTranslation then seq(|conv|, i requires 0 <= i < |conv| => View(conv[i], None))
    else ReaderViews(svc, conv, me, lang)
  }

  /** The text `sendMessage` pushes to a receiver whose preference is
      `lang`: the original when `lang` is `default`, the text is empty, or
      its detected language is `lang`; otherwise its translation. */
  function ReceiverText(svc: Service, text: string, lang: string): (t: string)
    ensures lang == NoTranslation || text == "" || DetectLanguage(svc, text) == lang ==> t == text
    ensures t == text || svc.translate(text, DetectLanguage(svc, text), lang) == Ok(t)
    ensures Blank(text) ==> t == text
    ensures var d := DetectLanguage(svc, text);
            lang != NoTranslation && !Blank(text) && d != lang && svc.translate(text, d, lang).Ok?
            ==> t == svc.translate(text, d, lang).value
    ensures var d := DetectLanguage(svc, text);
            svc.translate(text, d, lang).Fail? ==> t == text
  {
    if lang != NoTranslation && text != "" then
      match Retranslation(svc, text, lang)
      case Some(translated) => translated
      case None => text
    else text
  }

  /** `messageForReceiver`: the stored record with the receiver's text and
      an `isTranslated` flag that is always present. */
  function ReceiverCopy(svc: Service, m: Message, lang: string): (v: View)
    ensures v.record.(text := m.text) == m
    ensures v.isTranslated == Some(v.record.text != m.text)
    ensures lang == NoTranslation || m.text == "" || DetectLanguage(svc, m.text) == lang ==> v.record == m
    ensures var d := DetectLanguage(svc, m.text);
            lang != NoTranslation && !Blank(m.text) && d != lang && svc.translate(m.text, d, lang).Ok?
            ==> v.record.text == svc.translate(m.text, d, lang).value
                && v.isTranslated == Some(svc.translate(m.text, d, lang).value != m.text)
    ensures var d := DetectLanguage(svc, m.text);
            Blank(m.text) || svc.translate(m.text, d, lang).Fail? ==> v.record == m && v.isTranslated == Some(false)
  {
    var t := ReceiverText(svc, m.text, lang);
    View(m.(text := t), Some(t != m.text))
  }

  /** The fetch callback and the push copy make the same decision: for the
      same stored record, the same preference and the same translator
      answers, the fetch yields the record the push carries, and the same
      `isTranslated` whenever the fetch view has one. */
  lemma PushMatchesFetch(svc: Service, m: Message, lang: string)
    requires lang != NoTranslation
    ensures ReaderView(svc, m, m.receiverId, lang).record == ReceiverCopy(svc, m, lang).record
    ensures ReaderView(svc, m, m.receiverId, lang).isTranslated.Some?
            ==> ReaderView(svc, m, m.receiverId, lang).isTranslated == ReceiverCopy(svc, m, lang).isTranslated
  {
  }

  // ---------------------------------------------------------------------
  // The store

  /** The `Message` collection. Ids grow with insertion order. */
  class MessageStore {
    var messages: seq<Message>
    var nextId: MessageId

    ghost predicate Valid()
      reads this
    {
      && (forall i :: 0 <= i < |messages| ==> messages[i].id < nextId)
      && (forall i, j :: 0 <= i < j < |messages| ==> messages[i].id < messages[j].id)
    }

    constructor ()
      ensures Valid() && messages == []
    {
      messages, nextId := [], 0;
    }

    /** `Message.create`: appends one unseen message with a fresh id. */
    method Create(senderId: UserId, receiverId: UserId, text: string, image: Option<string>)
      returns (m: Message)
      requires Valid()
      modifies this
      ensures Valid()
      ensures m == Message(old(nextId), senderId, receiverId, text, image, false)
      ensures messages == old(messages) + [m]
      ensures nextId == old(nextId) + 1
      ensures forall i :: 0 <= i < |old(messages)| ==> old(messages)[i].id != m.id
    {
      m := Message(nextId, senderId, receiverId, text, image, false);
      messages := messages + [m];
      nextId := nextId + 1;
    }

    /** `Message.updateMany({senderId, receiverId}, {seen: true})`. */
    method UpdateManySeen(senderId: UserId, receiverId: UserId)
      requires Valid()
      modifies this
      ensures Valid()
      ensures messages == MarkedSeen(old(messages), senderId, receiverId) && nextId == old(nextId)
    {
      var before := messages;
      messages := MarkedSeen(messages, senderId, receiverId);
      forall i | 0 <= i < |messages| ensures messages[i].id == before[i].id {
        MarkedSeenAt(before, senderId, receiverId, i);
      }
    }

    /** `Message.findByIdAndUpdate(id, {seen: true})`. */
    method FindByIdAndUpdateSeen(id: MessageId)
      requires Valid()
      modifies this
      ensures Valid()
      ensures messages == SeenById(old(messages), id) && nextId == old(nextId)
    {
      var before := messages;
      messages := SeenById(messages, id);
      forall i | 0 <= i < |messages| ensures messages[i].id == before[i].id {
        SeenByIdAt(before, id, i);
      }
    }
  }

  // ---------------------------------------------------------------------
  // Controllers

  /** `User.find({_id: {$ne: me}})`: every other user, in store order. */
  function Others(users: seq<User>, me: UserId): (others: seq<User>)
    ensures forall u :: u in others <==> u in users && u.id != me
  {
    if users == [] then []
    else
      var rest := Others(users[1..], me);
      assert forall u :: u in users[1..] ==> u in users;
      if users[0].id != me then [users[0]] + rest else rest
  }

  function IdsOf(users: seq<User>): set<UserId>
  {
    set u | u in users :: u.id
  }

  /** `getUsersForSidebar`: the other users, and for each of them that has
      sent `me` unseen messages, how many; users with none are absent. */
  method GetUsersForSidebar(users: seq<User>, messages: seq<Message>, me: UserId)
    returns (filtered: seq<User>, unseenMessages: map<UserId, nat>)
    ensures filtered == Others(users, me)
    ensures forall u :: u in unseenMessages <==> u in IdsOf(users) && u != me && UnseenCount(messages, u, me) > 0
    ensures forall u :: u in unseenMessages ==> unseenMessages[u] == UnseenCount(messages, u, me)
  {
    filtered := Others(users, me);
    unseenMessages := map[];
    var i := 0;
    while i < |filtered|
      invariant 0 <= i <= |filtered|
      invariant forall u :: u in unseenMessages <==> u in IdsOf(filtered[..i]) && UnseenCount(messages, u, me) > 0
      invariant forall u :: u in unseenMessages ==> unseenMessages[u] == UnseenCount(messages, u, me)
    {
      var user := filtered[i];
      var count := UnseenCount(messages, user.id, me);
      if count > 0 {
        unseenMessages := unseenMessages[user.id := count];
      }
      assert filtered[..i + 1] == filtered[..i] + [user];
      assert IdsOf(filtered[..i + 1]) == IdsOf(filtered[..i]) + {user.id};
      i := i + 1;
    }
    assert filtered[..i] == filtered;
    forall u ensures u in IdsOf(filtered) <==> u in IdsOf(users) && u != me {
      if u in IdsOf(users) && u != me {
        var w :| w in users && w.id == u;
        assert w in filtered;
      }
    }
  }

  /** `getMessages`: the conversation between `me` and `peer` as `me`
      should see it, after which every message from `peer` to `me` is
      seen. A requester missing from the user store makes the controller
      fail before anything is marked. */
  method GetMessages(store: MessageStore, userStore: Users.UserStore, svc: Service, me: UserId, peer: UserId)
    returns (r: Result<seq<View>>)
    requires store.Valid()
    modifies store
    ensures store.Valid()
    ensures store.nextId == old(store.nextId)
    ensures Users.FindById(userStore.users, me).None? ==> r == Failure(NullUser) && store.messages == old(store.messages)
    ensures Users.FindById(userStore.users, me).Some? ==>
      && r == Success(ConversationViews(svc, Conversation(old(store.messages), me, peer), me,
                                        Users.FindById(userStore.users, me).value.preferredLanguage))
      && store.messages == MarkedSeen(old(store.messages), peer, me)
  {
    var messages := Conversation(store.messages, me, peer);
    var currentUser := Users.FindById(userStore.users, me);
    if currentUser.None? {
      return Failure(NullUser);
    }
    var userLanguage := currentUser.value.preferredLanguage;
    var translatedMessages := ConversationViews(svc, messages, me, userLanguage);
    store.UpdateManySeen(peer, me);
    r := Success(translatedMessages);
  }

  /** `markMessageAsSeen`: flips one message's flag; always succeeds. */
  method MarkMessageAsSeen(store: MessageStore, id: MessageId) returns (r: Result<()>)
    requires store.Valid()
    modifies store
    ensures store.Valid()
    ensures r == Success(())
    ensures store.messages == SeenById(old(store.messages), id) && store.nextId == old(store.nextId)
  {
    store.FindByIdAndUpdateSeen(id);
    r := Success(());
  }

  /** The image URL a send stores: nothing without an image, else what the
      upload answered; a failed upload fails the send. */
  function ImageUrl(image: string, upload: string -> Outcome<string>): (url: Outcome<Option<string>>)
    ensures image == "" ==> url == Ok(None)
    ensures image != "" && upload(image).Ok? ==> url == Ok(Some(upload(image).value))
    ensures image != "" && upload(image).Fail? ==> url == Fail(upload(image).error)
  {
    if image == "" then Ok(None)
    else match upload(image)
      case Ok(url) => Ok(Some(url))
      case Fail(e) => Fail(e)
  }

  /** `sendMessage`: a failed upload stores nothing and pushes nothing.
      Otherwise exactly one unseen message with the original text and the
      image URL is appended, and that record is what the sender gets back.
      A receiver missing from the user store fails the request after the
      message is stored. Else the receiver's copy is pushed if, and only
      if, the receiver has a socket. */
  method SendMessage(store: MessageStore, userStore: Users.UserStore, hub: Presence.Hub, svc: Service,
                     upload: string -> Outcome<string>,
                     senderId: UserId, receiverId: UserId, text: string, image: string)
    returns (r: Result<Message>)
    requires store.Valid() && hub.Valid()
    modifies store, hub
    ensures store.Valid() && hub.Valid()
    ensures hub.socketOf == old(hub.socketOf) && hub.online == old(hub.online)
    ensures ImageUrl(image, upload).Fail? ==>
      && r == Failure(ImageUrl(image, upload).error)
      && store.messages == old(store.messages)
      && store.nextId == old(store.nextId)
      && hub.events == old(hub.events)
    ensures ImageUrl(image, upload).Ok? ==>
      var m := Message(old(store.nextId), senderId, receiverId, text, ImageUrl(image, upload).value, false);
      && store.messages == old(store.messages) + [m]
      && store.nextId == old(store.nextId) + 1
      && (Users.FindById(userStore.users, receiverId).None? ==>
            r == Failure(NullUser) && hub.events == old(hub.events))
      && (Users.FindById(userStore.users, receiverId).Some? ==>
            var copy := ReceiverCopy(svc, m, Users.FindById(userStore.users, receiverId).value.preferredLanguage);
            && r == Success(m)
            && hub.events == old(hub.events)
                 + (if receiverId in hub.socketOf && hub.socketOf[receiverId] != ""
                    then [NewMessage(hub.socketOf[receiverId], copy)] else []))
  {
    var imageUrl: Option<string> := None;
    if image != "" {
      match upload(image)
      case Fail(e) =>
        return Failure(e);
      case Ok(url) =>
        imageUrl := Some(url);
    }
    var newMessage := store.Create(senderId, receiverId, text, imageUrl);
    var receiver := Users.FindById(userStore.users, receiverId);
    if receiver.None? {
      return Failure(NullUser);
    }
    var receiverLanguage := receiver.value.preferredLanguage;
    var translatedText := ReceiverText(svc, text, receiverLanguage);
    var messageForReceiver := View(newMessage.(text := translatedText), Some(translatedText != text));
    var receiverSocketId := hub.Lookup(receiverId);
    if receiverSocketId.Some? && receiverSocketId.value != "" {
      hub.EmitNewMessage(receiverSocketId.value, messageForReceiver);
    }
    r := Success(newMessage);
  }
}
