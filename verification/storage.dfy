/**
 * The sqlite-backed store of cmd/storage.go. The two tables are sequences of rows held by a
 * `Store` object; the SQL statements the store issues become the functions and loops below.
 */
module Storage {
  import opened Basics

  const SecondsPerDay: int := 86400

  /**
   * UTC offset, in seconds, of the local zone dates are formatted in. The program formats in
   * whatever `time.Local` is; this model fixes one offset arbitrarily (UTC+3). Nothing below
   * depends on its value, only on it being the same for every timestamp.
   */
  const ZoneOffset: int := 3 * 3600

  /**
   * The calendar day that `time.Unix(timestamp, 0).Format(time.DateOnly)` prints, as a day
   * number: two timestamps print the same "YYYY-MM-DD" text exactly when their day numbers agree.
   * The day is the number of whole days between the epoch's local midnight and the local time.
   */
  function DayOf(timestamp: int): (day: int)
    ensures day * SecondsPerDay <= timestamp + ZoneOffset < (day + 1) * SecondsPerDay
  {
    (timestamp + ZoneOffset) / SecondsPerDay
  }

  lemma DayOfMonotone(a: int, b: int)
    requires a <= b
    ensures DayOf(a) <= DayOf(b)
  {
  }

  /** A row of `chats`: `chat_id` is the primary key. */
  datatype ChatRow = ChatRow(chatId: Int64, timestamp: Int64)

  /** A row of `links`: the table has no key at all. */
  datatype LinkRow = LinkRow(chatId: Int64, timestamp: Int64, url: string, messageId: Int64)

  /** One day's links of a chat, in timestamp order; `date` is the day number of `DayOf`. */
  datatype ToCollage = ToCollage(date: int, links: seq<string>)

  datatype StoreError = DuplicateKey(chatId: Int64)

  // ---------------------------------------------------------------------------
  // The query `select timestamp, url, message_id from links where chat_id = ?
  // order by timestamp asc`
  // ---------------------------------------------------------------------------

  /** `where chat_id = ?`: the rows of one chat, in table order. */
  function OfChat(rows: seq<LinkRow>, chatId: Int64): (r: seq<LinkRow>)
    ensures forall k :: 0 <= k < |r| ==> r[k].chatId == chatId
    ensures forall row :: multiset(r)[row] == if row.chatId == chatId then multiset(rows)[row] else 0
  {
    if rows == [] then []
    else
      var last := rows[|rows| - 1];
      assert rows == rows[..|rows| - 1] + [last];
      var rest := OfChat(rows[..|rows| - 1], chatId);
      if last.chatId == chatId then rest + [last] else rest
  }

  ghost predicate SortedByTime(rows: seq<LinkRow>) {
    forall i, j :: 0 <= i < j < |rows| ==> rows[i].timestamp <= rows[j].timestamp
  }

  /** Places `row` after every row of `sorted` whose timestamp is not later than its own. */
  function InsertByTime(sorted: seq<LinkRow>, row: LinkRow): (r: seq<LinkRow>)
    ensures multiset(r) == multiset(sorted) + multiset{row}
    ensures forall k :: 0 <= k < |r| ==> r[k] in sorted || r[k] == row
  {
    if sorted == [] || sorted[|sorted| - 1].timestamp <= row.timestamp then
      sorted + [row]
    else
      var last := sorted[|sorted| - 1];
      assert sorted == sorted[..|sorted| - 1] + [last];
      InsertByTime(sorted[..|sorted| - 1], row) + [last]
  }

  lemma {:induction false} InsertByTimeSorted(sorted: seq<LinkRow>, row: LinkRow)
    requires SortedByTime(sorted)
    ensures SortedByTime(InsertByTime(sorted, row))
  {
    if sorted == [] || sorted[|sorted| - 1].timestamp <= row.timestamp {
    } else {
      var init, last := sorted[..|sorted| - 1], sorted[|sorted| - 1];
      InsertByTimeSorted(init, row);
      var front := InsertByTime(init, row);
      assert InsertByTime(sorted, row) == front + [last];
      forall k | 0 <= k < |front|
        ensures front[k].timestamp <= last.timestamp
      {
        if front[k] != row {
          var j :| 0 <= j < |init| && init[j] == front[k];
        }
      }
    }
  }

  /** `order by timestamp asc`; rows with equal timestamps keep their table order. */
  function SortByTime(rows: seq<LinkRow>): (r: seq<LinkRow>)
    ensures SortedByTime(r)
    ensures multiset(r) == multiset(rows)
  {
    if rows == [] then []
    else
      assert rows == rows[..|rows| - 1] + [rows[|rows| - 1]];
      var init := SortByTime(rows[..|rows| - 1]);
      InsertByTimeSorted(init, rows[|rows| - 1]);
      InsertByTime(init, rows[|rows| - 1])
  }

  /** The rows `Links` scans: every row of the chat exactly as often as it is stored, oldest first. */
  function Select(links: seq<LinkRow>, chatId: Int64): (r: seq<LinkRow>)
    ensures SortedByTime(r)
  {
    SortByTime(OfChat(links, chatId))
  }

  /** `Select` returns each row of the chat as often as it is stored, and no row of another chat. */
  lemma SelectRows(links: seq<LinkRow>, chatId: Int64)
    ensures forall row :: row in Select(links, chatId) ==> row.chatId == chatId
    ensures forall row :: multiset(Select(links, chatId))[row]
                          == if row.chatId == chatId then multiset(links)[row] else 0
  {
    var r := Select(links, chatId);
    forall row | row in r
      ensures row.chatId == chatId
    {
      assert multiset(r)[row] > 0;
    }
  }

  // ---------------------------------------------------------------------------
  // Views of the result of `Links`
  // ---------------------------------------------------------------------------

  function MessageIds(rows: seq<LinkRow>): seq<Int64> {
    seq(|rows|, k requires 0 <= k < |rows| => rows[k].messageId)
  }

  /** Each row's url with the day it falls on. */
  function DatedRows(rows: seq<LinkRow>): seq<(int, string)> {
    seq(|rows|, k requires 0 <= k < |rows| => (DayOf(rows[k].timestamp), rows[k].url))
  }

  /** The links of one group, each with the group's date. */
  function DatedLinks(group: ToCollage): seq<(int, string)> {
    seq(|group.links|, k requires 0 <= k < |group.links| => (group.date, group.links[k]))
  }

  /** The links of all groups, in group order, each with the date of the group holding it. */
  function Flatten(groups: seq<ToCollage>): seq<(int, string)> {
    if groups == [] then [] else Flatten(groups[..|groups| - 1]) + DatedLinks(groups[|groups| - 1])
  }

  lemma FlattenOpenGroup(groups: seq<ToCollage>, date: int)
    ensures Flatten(groups + [ToCollage(date, [])]) == Flatten(groups)
  {
    assert (groups + [ToCollage(date, [])])[..|groups|] == groups;
  }

  lemma FlattenExtendLast(groups: seq<ToCollage>, url: string)
    requires groups != []
    ensures var i := |groups| - 1;
            Flatten(groups[i := groups[i].(links := groups[i].links + [url])])
            == Flatten(groups) + [(groups[i].date, url)]
  {
    var i := |groups| - 1;
    var grown := groups[i := groups[i].(links := groups[i].links + [url])];
    assert grown[..i] == groups[..i];
    assert DatedLinks(grown[i]) == DatedLinks(groups[i]) + [(groups[i].date, url)];
  }

  /** One more row scanned: the prefix grows by it, and so do the message ids. */
  lemma PrefixSnoc(rows: seq<LinkRow>, k: nat)
    requires k < |rows|
    ensures rows[..k + 1] == rows[..k] + [rows[k]]
    ensures MessageIds(rows[..k + 1]) == MessageIds(rows[..k]) + [rows[k].messageId]
  {
    assert rows[..k + 1] == rows[..k] + [rows[k]];
  }

  /** What `Links` promises of the groups it has built from the rows scanned so far. */
  ghost predicate GroupedByDay(rows: seq<LinkRow>, groups: seq<ToCollage>) {
    && Flatten(groups) == DatedRows(rows)
    && (groups == [] <==> rows == [])
    && (rows != [] ==> groups[|groups| - 1].date == DayOf(rows[|rows| - 1].timestamp))
    && (forall g :: 0 <= g < |groups| ==> groups[g].links != [])
    && (forall g, h :: 0 <= g < h < |groups| ==> groups[g].date < groups[h].date)
  }

  /** The groups after appending `url` to the last of them. */
  function AppendToLast(groups: seq<ToCollage>, url: string): (r: seq<ToCollage>)
    requires groups != []
    ensures |r| == |groups|
    ensures forall g :: 0 <= g < |r| ==> r[g].date == groups[g].date
  {
    var i := |groups| - 1;
    groups[i := groups[i].(links := groups[i].links + [url])]
  }

  /** The groups after the row's day was compared with the last group's date. */
  function OpenDay(groups: seq<ToCollage>, date: int): (r: seq<ToCollage>)
    ensures r != [] && r[|r| - 1].date == date
  {
    if groups != [] && groups[|groups| - 1].date == date then groups
    else groups + [ToCollage(date, [])]
  }

  lemma StepFlatten(rows: seq<LinkRow>, groups: seq<ToCollage>, row: LinkRow)
    requires Flatten(groups) == DatedRows(rows)
    ensures Flatten(AppendToLast(OpenDay(groups, DayOf(row.timestamp)), row.url)) == DatedRows(rows + [row])
  {
    var date := DayOf(row.timestamp);
    FlattenOpenGroup(groups, date);
    FlattenExtendLast(OpenDay(groups, date), row.url);
    assert DatedRows(rows + [row]) == DatedRows(rows) + [(date, row.url)];
  }

  lemma StepDates(rows: seq<LinkRow>, groups: seq<ToCollage>, row: LinkRow)
    requires GroupedByDay(rows, groups)
    requires rows != [] ==> rows[|rows| - 1].timestamp <= row.timestamp
    ensures var grown := AppendToLast(OpenDay(groups, DayOf(row.timestamp)), row.url);
            && (forall g :: 0 <= g < |grown| ==> grown[g].links != [])
            && (forall g, h :: 0 <= g < h < |grown| ==> grown[g].date < grown[h].date)
            && grown[|grown| - 1].date == DayOf(row.timestamp)
  {
    if rows != [] {
      DayOfMonotone(rows[|rows| - 1].timestamp, row.timestamp);
    }
  }

  /** One turn of the scan in `Links`, for a row not older than the rows before it. */
  lemma GroupedByDayStep(rows: seq<LinkRow>, groups: seq<ToCollage>, row: LinkRow)
    requires GroupedByDay(rows, groups)
    requires rows != [] ==> rows[|rows| - 1].timestamp <= row.timestamp
    ensures GroupedByDay(rows + [row], AppendToLast(OpenDay(groups, DayOf(row.timestamp)), row.url))
  {
    StepFlatten(rows, groups, row);
    StepDates(rows, groups, row);
  }

  class Store {
    var chats: seq<ChatRow>
    var links: seq<LinkRow>

    /** `chat_id` is the primary key of `chats`. */
    ghost predicate Valid()
      reads this
    {
      forall a, b :: 0 <= a < b < |chats| ==> chats[a].chatId != chats[b].chatId
    }

    /** Both tables start empty (`create table if not exists` on a fresh file). */
    constructor ()
      ensures Valid() && chats == [] && links == []
    {
      chats := [];
      links := [];
    }

    function ChatIds(): set<Int64>
      reads this
    {
      set k | 0 <= k < |chats| :: chats[k].chatId
    }

    /** `insert into chats (chat_id, timestamp) values(?,?)`; a second insert of a key fails. */
    method RegisterChat(chatId: Int64, date: Int64) returns (r: Result<(), StoreError>)
      requires Valid()
      modifies this`chats
      ensures Valid()
      ensures r.Ok? <==> chatId !in old(ChatIds())
      ensures r.Ok? ==> chats == old(chats) + [ChatRow(chatId, date)]
      ensures r.Err? ==> r.error == DuplicateKey(chatId) && chats == old(chats)
      ensures links == old(links)
    {
      if chatId in ChatIds() {
        return Err(DuplicateKey(chatId));
      }
      chats := chats + [ChatRow(chatId, date)];
      return Ok(());
    }

    /** `insert into links (chat_id, timestamp, url, message_id) values (?,?,?,?)`. */
    method RegisterLink(chatId: Int64, messageId: Int64, datetime: Int64, link: string)
      modifies this`links
      ensures links == old(links) + [LinkRow(chatId, datetime, link, messageId)]
      ensures chats == old(chats)
    {
      links := links + [LinkRow(chatId, datetime, link, messageId)];
    }

    /** `select chat_id from chats`: every registered chat once, in no promised order. */
    method Chats() returns (ids: seq<Int64>)
      requires Valid()
      ensures |ids| == |chats|
      ensures forall a, b :: 0 <= a < b < |ids| ==> ids[a] != ids[b]
      ensures forall c :: c in ids <==> c in ChatIds()
    {
      ids := [];
      var k := 0;
      while k < |chats|
        invariant 0 <= k <= |chats|
        invariant |ids| == k
        invariant forall j :: 0 <= j < k ==> ids[j] == chats[j].chatId
      {
        ids := ids + [chats[k].chatId];
        k := k + 1;
      }
    }

    /**
     * The chat's message ids oldest first, and its links split into one group per day: a new
     * group opens whenever a row's day differs from the previous row's.
     */
    method Links(chatId: Int64) returns (messages: seq<Int64>, groups: seq<ToCollage>)
      ensures var rows := Select(links, chatId);
              && messages == MessageIds(rows)
              && Flatten(groups) == DatedRows(rows)
              && (groups == [] <==> rows == [])
      ensures forall g :: 0 <= g < |groups| ==> groups[g].links != []
      ensures forall g, h :: 0 <= g < h < |groups| ==> groups[g].date < groups[h].date
    {
      var rows := Select(links, chatId);
      messages, groups := ScanRows(rows);
    }
  }

  /** Scanning row `k` of rows sorted by timestamp keeps the grouping invariant. */
  lemma ScanStep(rows: seq<LinkRow>, k: nat, groups: seq<ToCollage>)
    requires SortedByTime(rows) && k < |rows|
    requires GroupedByDay(rows[..k], groups)
    ensures GroupedByDay(rows[..k + 1], AppendToLast(OpenDay(groups, DayOf(rows[k].timestamp)), rows[k].url))
    ensures MessageIds(rows[..k + 1]) == MessageIds(rows[..k]) + [rows[k].messageId]
  {
    PrefixSnoc(rows, k);
    assert k > 0 ==> rows[..k][k - 1].timestamp <= rows[k].timestamp;
    GroupedByDayStep(rows[..k], groups, rows[k]);
  }

  /**
   * The body of the scan in `Links` for one row: open a group when the row's day differs from
   * `prevDate`, then append the row's url to group `i`.
   */
  method AddToDay(groups: seq<ToCollage>, i: int, prevDate: Option<int>, row: LinkRow)
    returns (groups': seq<ToCollage>, i': int, prevDate': Option<int>)
    requires i == |groups| - 1
    requires prevDate == if groups == [] then None else Some(groups[i].date)
    ensures groups' == AppendToLast(OpenDay(groups, DayOf(row.timestamp)), row.url)
    ensures i' == |groups'| - 1 && prevDate' == Some(groups'[i'].date)
  {
    groups', i', prevDate' := groups, i, prevDate;
    var date := DayOf(row.timestamp);
    if prevDate' != Some(date) {
      groups' := groups' + [ToCollage(date, [])];
      prevDate' := Some(date);
      i' := i' + 1;
    }
    groups' := groups'[i' := groups'[i'].(links := groups'[i'].links + [row.url])];
  }

  /**
   * The `for rows.Next()` loop of `Links`: collects the message ids and opens a new group
   * whenever a row's day differs from the previous row's (`prevDate` starts empty, so the
   * first row always opens group 0 before anything is appended to `groups[i]`).
   */
  method ScanRows(rows: seq<LinkRow>) returns (messages: seq<Int64>, groups: seq<ToCollage>)
    requires SortedByTime(rows)
    ensures messages == MessageIds(rows)
    ensures Flatten(groups) == DatedRows(rows)
    ensures groups == [] <==> rows == []
    ensures forall g :: 0 <= g < |groups| ==> groups[g].links != []
    ensures forall g, h :: 0 <= g < h < |groups| ==> groups[g].date < groups[h].date
  {
    messages, groups := [], [];
    var prevDate: Option<int> := None;
    var i := -1;
    var k := 0;
    while k < |rows|
      invariant 0 <= k <= |rows|
      invariant i == |groups| - 1
      invariant messages == MessageIds(rows[..k])
      invariant GroupedByDay(rows[..k], groups)
      invariant prevDate == if groups == [] then None else Some(groups[i].date)
    {
      var row := rows[k];
      ScanStep(rows, k, groups);
      messages := messages + [row.messageId];
      groups, i, prevDate := AddToDay(groups, i, prevDate, row);
      k := k + 1;
    }
    assert rows[..k] == rows;
  }
}
