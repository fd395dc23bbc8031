/**
 * The key scheme of cmd/main.go: a channel post's link is stored under
 * `fmt.Sprintf("%d_%s_%d", chatID, day, clock)` and `cronHandler` scans the keys that start with
 * `fmt.Sprintf("%d_%s_", chatID, date)`.
 */
module Keys {
  import opened Basics

  function DigitChar(d: nat): (c: char)
    requires d < 10
    ensures '0' <= c <= '9'
  {
    "0123456789"[d]
  }

  /** The decimal digits of `n`, most significant first, without leading zeros. */
  function Digits(n: nat): (s: string)
    ensures |s| >= 1
    ensures forall i :: 0 <= i < |s| ==> '0' <= s[i] <= '9'
    ensures n >= 10 ==> |s| >= 2
  {
    if n < 10 then [DigitChar(n)] else Digits(n / 10) + [DigitChar(n % 10)]
  }

  /** `%d` of an integer. */
  function Decimal(n: int): (s: string)
    ensures s != [] && (s[0] == '-' || '0' <= s[0] <= '9')
    ensures '_' !in s
  {
    if n < 0 then "-" + Digits(-n) else Digits(n)
  }

  lemma {:induction false} DigitsInjective(a: nat, b: nat)
    requires Digits(a) == Digits(b)
    ensures a == b
  {
    if a >= 10 && b >= 10 {
      var da, db := Digits(a), Digits(b);
      assert da[..|da| - 1] == Digits(a / 10);
      assert db[..|db| - 1] == Digits(b / 10);
      DigitsInjective(a / 10, b / 10);
      assert DigitChar(a % 10) == DigitChar(b % 10);
    }
  }

  /** Distinct chat ids print differently. */
  lemma DecimalInjective(a: int, b: int)
    requires Decimal(a) == Decimal(b)
    ensures a == b
  {
    if a < 0 && b < 0 {
      assert Decimal(a)[1..] == Digits(-a);
      assert Decimal(b)[1..] == Digits(-b);
      DigitsInjective(-a, -b);
    } else if a >= 0 && b >= 0 {
      DigitsInjective(a, b);
    }
  }

  /** A day as `time.DateOnly` prints it, "2006-01-02". */
  predicate IsDate(day: string) {
    && |day| == 10
    && day[4] == '-' && day[7] == '-'
    && forall i :: 0 <= i < 10 && i != 4 && i != 7 ==> '0' <= day[i] <= '9'
  }

  /** The prefix `cronHandler` scans for a chat's links of one day. */
  function ScanPrefix(chatId: Int64, day: string): (p: string)
    ensures var n := |Decimal(chatId)|;
            && |p| == n + |day| + 2
            && Decimal(chatId) + "_" <= p && p[|p| - 1] == '_'
            && p[n + 1..|p| - 1] == day
  {
    Decimal(chatId) + "_" + day + "_"
  }

  /**
   * The key a channel post is stored under. `clock` is a string printed with `%d`, so Go writes
   * it as "%!d(string=...)".
   */
  function LinkKey(chatId: Int64, day: string, clock: string): (k: string)
    ensures ScanPrefix(chatId, day) <= k
  {
    ScanPrefix(chatId, day) + "%!d(string=" + clock + ")"
  }

  /** Two underscore-free fields that are each followed by '_' at the start of `u` are equal. */
  lemma FirstField(a: string, b: string, u: string)
    requires '_' !in a && '_' !in b
    requires a + "_" <= u && b + "_" <= u
    ensures a == b
  {
    assert u[|a|] == '_' && u[|b|] == '_';
    assert a == u[..|a|] && b == u[..|b|];
  }

  /**
   * A scan for chat `c2` on day `d2` finds the key written for chat `c` on day `d` exactly when
   * the chat and the day are the same.
   */
  lemma ScanFindsOnlyItsChatAndDay(c: Int64, d: string, clock: string, c2: Int64, d2: string)
    requires IsDate(d) && IsDate(d2)
    ensures ScanPrefix(c2, d2) <= LinkKey(c, d, clock) <==> c2 == c && d2 == d
  {
    var key := LinkKey(c, d, clock);
    var p, p2 := ScanPrefix(c, d), ScanPrefix(c2, d2);
    if p2 <= key {
      var a, a2 := Decimal(c), Decimal(c2);
      assert a + "_" <= key && a2 + "_" <= key;
      FirstField(a, a2, key);
      DecimalInjective(c, c2);
      assert p2 == key[..|p|] == p;
    }
  }

  /** No link key collides with the key "chats" that holds the registered chats. */
  lemma LinkKeyIsNotChatsKey(c: Int64, d: string, clock: string)
    ensures LinkKey(c, d, clock) != "chats"
  {
    assert LinkKey(c, d, clock)[0] == Decimal(c)[0];
  }
}
