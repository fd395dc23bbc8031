/**
 * The two update handlers of cmd/main.go that write to the badger key-value store, and the read
 * of the registered chats at the start of `cronHandler`. Of the store only what the handlers
 * touch is kept: the value of the key "chats" and the link entries keyed by `Keys.LinkKey`
 * (`Keys.LinkKeyIsNotChatsKey`: the two never share a key).
 */
module Bot {
  import opened Basics
  import ChatList
  import Keys

  /** One size of a posted photo; only `FileSize` decides which one is kept. */
  datatype PhotoSize = PhotoSize(fileId: string, fileSize: int)

  ghost predicate SortedBySize(s: seq<PhotoSize>) {
    forall p, q :: 0 <= p < q < |s| ==> s[p].fileSize <= s[q].fileSize
  }

  /** Exchanges the photos at `j - 1` and `j`. */
  method SwapDown(a: array<PhotoSize>, j: nat)
    requires 0 < j < a.Length
    modifies a
    ensures a[..] == old(a[..])[j - 1 := old(a[j])][j := old(a[j - 1])]
    ensures multiset(a[..]) == old(multiset(a[..]))
  {
    a[j - 1], a[j] := a[j], a[j - 1];
  }

  /** `slices.SortFunc(photos, ...)` comparing `FileSize`: sorts the photos in place, smallest first. */
  method SortBySize(a: array<PhotoSize>)
    modifies a
    ensures SortedBySize(a[..])
    ensures multiset(a[..]) == old(multiset(a[..]))
  {
    var i := 0;
    while i < a.Length
      invariant 0 <= i <= a.Length
      invariant SortedBySize(a[..i])
      invariant multiset(a[..]) == old(multiset(a[..]))
    {
      var j := i;
      while j > 0 && a[j - 1].fileSize > a[j].fileSize
        invariant 0 <= j <= i
        invariant forall p, q :: 0 <= p < q <= i && p != j && q != j ==> a[p].fileSize <= a[q].fileSize
        invariant forall q :: j < q <= i ==> a[j].fileSize < a[q].fileSize
        invariant multiset(a[..]) == old(multiset(a[..]))
      {
        SwapDown(a, j);
        j := j - 1;
      }
      i := i + 1;
    }
    assert a[..] == a[..a.Length];
  }

  /**
   * The photo `botHandleChannelPost` keeps: none for a post without photos; otherwise the last
   * one after sorting, which has the largest `FileSize` of the post.
   */
  method LargestPhoto(photos: array<PhotoSize>) returns (r: Option<PhotoSize>)
    modifies photos
    ensures r.None? <==> photos.Length == 0
    ensures r.Some? ==> r.value in old(photos[..])
    ensures r.Some? ==> forall k :: 0 <= k < photos.Length ==> old(photos[k]).fileSize <= r.value.fileSize
    ensures photos.Length > 0 ==> SortedBySize(photos[..])
    ensures multiset(photos[..]) == old(multiset(photos[..]))
  {
    if photos.Length == 0 {
      return None;
    }
    SortBySize(photos);
    var largest := photos[photos.Length - 1];
    forall k | 0 <= k < photos.Length
      ensures old(photos[k]).fileSize <= largest.fileSize
    {
      assert old(photos[..])[k] in multiset(photos[..]);
      var m :| 0 <= m < photos.Length && photos[m] == old(photos[k]);
    }
    assert largest in multiset(old(photos[..]));
    return Some(largest);
  }

  /** The keys the prefix iterator of `cronHandler` visits for a chat and a day. */
  function ScannedKeys(links: map<string, string>, chatId: Int64, day: string): set<string> {
    set k | k in links && Keys.ScanPrefix(chatId, day) <= k
  }

  /**
   * Storing a post's link adds its key to the scan of that chat and day and to no other scan;
   * every other scan visits the same keys as before.
   */
  lemma ScanAfterPost(links: map<string, string>, c: Int64, d: string, clock: string, link: string,
                      c2: Int64, d2: string)
    requires Keys.IsDate(d) && Keys.IsDate(d2)
    ensures ScannedKeys(links[Keys.LinkKey(c, d, clock) := link], c2, d2)
            == if c2 == c && d2 == d then ScannedKeys(links, c2, d2) + {Keys.LinkKey(c, d, clock)}
               else ScannedKeys(links, c2, d2)
  {
    Keys.ScanFindsOnlyItsChatAndDay(c, d, clock, c2, d2);
  }

  class Db {
    /** The value under the key "chats", if that key exists. */
    var chats: Option<seq<Byte>>
    /** The link entries, by key "<chat>_<day>_<clock>". */
    var links: map<string, string>
    /** The chat ids registered so far, in order. */
    ghost var registered: seq<Int64>

    ghost predicate Valid()
      reads this
    {
      match chats
      case None => registered == []
      case Some(v) => v == ChatList.EncodeAll(registered)
    }

    /** An empty store. */
    constructor ()
      ensures Valid() && chats.None? && links == map[] && registered == []
    {
      chats := None;
      links := map[];
      registered := [];
    }

    /** Whatever has been registered, the stored value splits into whole eight-byte chunks. */
    lemma StoredValueAligned()
      requires Valid() && chats.Some?
      ensures |chats.value| % ChatList.ChunkSize == 0
      ensures |chats.value| == ChatList.ChunkSize * |registered|
    {
    }

    /**
     * `botHandleMyChatMember`: stores the chat's eight bytes as the whole value when "chats" is
     * missing, and otherwise appends them to the existing value, with no check for duplicates.
     */
    method RegisterChat(chatId: Int64)
      requires Valid()
      modifies this`chats, this`registered
      ensures Valid()
      ensures registered == old(registered) + [chatId]
      ensures old(chats).None? ==> chats == Some(ChatList.EncodeChat(chatId))
      ensures old(chats).Some? ==> chats == Some(old(chats).value + ChatList.EncodeChat(chatId))
      ensures links == old(links)
    {
      match chats {
        case None =>
          chats := Some(ChatList.EncodeChat(chatId));
        case Some(existingValue) =>
          chats := Some(existingValue + ChatList.EncodeChat(chatId));
      }
      registered := registered + [chatId];
      assert registered[..|registered| - 1] == old(registered);
    }

    /**
     * The read at the start of `cronHandler`: the registered chats in registration order (a chat
     * registered twice is listed twice); none when "chats" is missing, whose lookup error is
     * only logged.
     */
    method RegisteredChats() returns (ids: seq<Int64>)
      requires Valid()
      ensures ids == registered
    {
      match chats {
        case None =>
          ids := [];
        case Some(v) =>
          ids := ChatList.DecodeChats(v);
          ChatList.DecodeAllEncodeAll(registered);
      }
    }

    /**
     * `botHandleChannelPost`: a post without photos writes nothing; otherwise the largest photo's
     * download link is stored under the key for the chat, the day and the clock of `now`.
     * `downloadLink` stands for `GetFile` followed by `FileDownloadLink` (`None`: `GetFile`
     * failed, and nothing is written).
     */
    method ChannelPost(chatId: Int64, photos: array<PhotoSize>, day: string, clock: string,
                       downloadLink: string -> Option<string>)
      returns (chosen: Option<PhotoSize>)
      modifies this`links, photos
      ensures chosen.None? <==> photos.Length == 0
      ensures chosen.Some? ==> chosen.value in old(photos[..])
      ensures chosen.Some? ==>
                forall k :: 0 <= k < photos.Length ==> old(photos[k]).fileSize <= chosen.value.fileSize
      ensures SortedBySize(photos[..])
      ensures multiset(photos[..]) == old(multiset(photos[..]))
      ensures links == if chosen.Some? && downloadLink(chosen.value.fileId).Some?
                       then old(links)[Keys.LinkKey(chatId, day, clock) := downloadLink(chosen.value.fileId).value]
                       else old(links)
      ensures chats == old(chats) && registered == old(registered)
    {
      chosen := LargestPhoto(photos);
      if chosen.None? {
        return;
      }
      var link := downloadLink(chosen.value.fileId);
      if link.None? {
        return;
      }
      links := links[Keys.LinkKey(chatId, day, clock) := link.value];
    }
  }
}
