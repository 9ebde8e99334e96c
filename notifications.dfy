/**
 * `groupNotificationsByDate` (src/pages/notification/NotificationPage.tsx):
 * buckets the notification list by the calendar date of each timestamp,
 * creating a bucket the first time its date is met. The date of a timestamp
 * is locale formatting and is supplied by the caller as `dateOf`.
 */
module Notifications {
  import opened Common

  datatype Channel = Email | Push

  datatype Notification = Notification(
    id: string,
    message: string,
    timestamp: string,
    channel: Channel,
    recipient: Option<string>)

  /** `new Date(notification.timestamp).toLocaleDateString()` */
  function DateKey(n: Notification, dateOf: string -> string): string
  {
    dateOf(n.timestamp)
  }

  /** The dates that occur in the list. */
  function Dates(ns: seq<Notification>, dateOf: string -> string): set<string>
  {
    set n | n in ns :: DateKey(n, dateOf)
  }

  /** Reference definition of a bucket: the notifications dated `d`, in input order. */
  function OfDate(ns: seq<Notification>, dateOf: string -> string, d: string): seq<Notification>
    decreases |ns|
  {
    if ns == [] then []
    else
      var last := ns[|ns| - 1];
      OfDate(ns[..|ns| - 1], dateOf, d) + (if DateKey(last, dateOf) == d then [last] else [])
  }

  /** Reference definition of the grouping: one bucket per date that occurs. */
  function Grouped(ns: seq<Notification>, dateOf: string -> string): map<string, seq<Notification>>
  {
    map d | d in Dates(ns, dateOf) :: OfDate(ns, dateOf, d)
  }

  /** The dates in the order their buckets are created, the order the page lists them in. */
  function DateOrder(ns: seq<Notification>, dateOf: string -> string): seq<string>
    decreases |ns|
  {
    if ns == [] then []
    else
      var earlier := DateOrder(ns[..|ns| - 1], dateOf);
      var d := DateKey(ns[|ns| - 1], dateOf);
      if d in earlier then earlier else earlier + [d]
  }

  /** The dates of a list with one more notification. */
  lemma DatesSnoc(ns: seq<Notification>, n: Notification, dateOf: string -> string)
    ensures Dates(ns + [n], dateOf) == Dates(ns, dateOf) + {DateKey(n, dateOf)}
  {
    var all := ns + [n];
    forall d | d in Dates(all, dateOf) ensures d in Dates(ns, dateOf) + {DateKey(n, dateOf)} {
      var m :| m in all && DateKey(m, dateOf) == d;
      if m != n {
        assert m in ns;
      }
    }
    forall d | d in Dates(ns, dateOf) ensures d in Dates(all, dateOf) {
      var m :| m in ns && DateKey(m, dateOf) == d;
      assert m in all;
    }
    assert n in all;
  }

  /** A bucket of a list with one more notification. */
  lemma OfDateSnoc(ns: seq<Notification>, n: Notification, dateOf: string -> string, d: string)
    ensures OfDate(ns + [n], dateOf, d) == OfDate(ns, dateOf, d) + (if DateKey(n, dateOf) == d then [n] else [])
  {
    assert (ns + [n])[..|ns|] == ns;
  }

  /** The dates listed are exactly the dates that occur, each listed once. */
  lemma {:induction false} DateOrderSpec(ns: seq<Notification>, dateOf: string -> string)
    ensures forall d :: d in DateOrder(ns, dateOf) <==> d in Dates(ns, dateOf)
    ensures forall i, j :: 0 <= i < j < |DateOrder(ns, dateOf)| ==> DateOrder(ns, dateOf)[i] != DateOrder(ns, dateOf)[j]
    decreases |ns|
  {
    if ns != [] {
      var init := ns[..|ns| - 1];
      DateOrderSpec(init, dateOf);
      assert ns == init + [ns[|ns| - 1]];
      DatesSnoc(init, ns[|ns| - 1], dateOf);
    }
  }

  /** A notification is in the bucket of date `d` exactly when it occurs and is dated `d`. */
  lemma {:induction false} OfDateMembers(ns: seq<Notification>, dateOf: string -> string, d: string, n: Notification)
    ensures n in OfDate(ns, dateOf, d) <==> n in ns && DateKey(n, dateOf) == d
    decreases |ns|
  {
    if ns != [] {
      var init := ns[..|ns| - 1];
      OfDateMembers(init, dateOf, d, n);
      assert ns == init + [ns[|ns| - 1]];
    }
  }

  /** A bucket keeps the input order. */
  lemma {:induction false} OfDateInOrder(ns: seq<Notification>, dateOf: string -> string, d: string)
    ensures IsSubsequence(OfDate(ns, dateOf, d), ns)
    decreases |ns|
  {
    if ns != [] {
      var init := ns[..|ns| - 1];
      var last := ns[|ns| - 1];
      OfDateInOrder(init, dateOf, d);
      assert ns == init + [last];
      if DateKey(last, dateOf) == d {
        assert OfDate(ns, dateOf, d) == OfDate(init, dateOf, d) + [last];
        SubsequenceSnoc(OfDate(init, dateOf, d), init, last);
      } else {
        assert OfDate(ns, dateOf, d) == OfDate(init, dateOf, d);
        SubsequenceExtend(OfDate(init, dateOf, d), init, last);
      }
    }
  }

  /** Adding a notification appends it to its date's bucket, creating the bucket if needed. */
  lemma GroupedSnoc(ns: seq<Notification>, n: Notification, dateOf: string -> string)
    ensures var g := Grouped(ns, dateOf);
      var d := DateKey(n, dateOf);
      Grouped(ns + [n], dateOf) == g[d := (if d in g then g[d] else []) + [n]]
  {
    var g := Grouped(ns, dateOf);
    var d := DateKey(n, dateOf);
    var after := Grouped(ns + [n], dateOf);
    var expected := g[d := (if d in g then g[d] else []) + [n]];
    DatesSnoc(ns, n, dateOf);
    assert after.Keys == expected.Keys;
    forall e | e in after.Keys
      ensures after[e] == expected[e]
    {
      OfDateSnoc(ns, n, dateOf, e);
      if e == d && d !in g {
        OfDateMembersEmpty(ns, dateOf, d);
      }
    }
  }

  /** A date that does not occur has an empty bucket. */
  lemma OfDateMembersEmpty(ns: seq<Notification>, dateOf: string -> string, d: string)
    requires d !in Dates(ns, dateOf)
    ensures OfDate(ns, dateOf, d) == []
  {
    var r := OfDate(ns, dateOf, d);
    if r != [] {
      OfDateMembers(ns, dateOf, d, r[0]);
    }
  }

  /**
   * Every notification lands in the bucket of its own date and in no other;
   * every bucket is non-empty; the buckets are keyed by exactly the dates that
   * occur; each bucket keeps the input order.
   */
  lemma GroupedSpec(ns: seq<Notification>, dateOf: string -> string)
    ensures Grouped(ns, dateOf).Keys == Dates(ns, dateOf)
    ensures forall n :: n in ns ==> DateKey(n, dateOf) in Grouped(ns, dateOf) && n in Grouped(ns, dateOf)[DateKey(n, dateOf)]
    ensures forall d, n :: d in Grouped(ns, dateOf) && n in Grouped(ns, dateOf)[d] ==> n in ns && DateKey(n, dateOf) == d
    ensures forall d :: d in Grouped(ns, dateOf) ==> Grouped(ns, dateOf)[d] != []
    ensures forall d :: d in Grouped(ns, dateOf) ==> IsSubsequence(Grouped(ns, dateOf)[d], ns)
  {
    var g := Grouped(ns, dateOf);
    forall d, n | d in g
      ensures n in g[d] <==> n in ns && DateKey(n, dateOf) == d
    {
      OfDateMembers(ns, dateOf, d, n);
    }
    forall n | n in ns
      ensures DateKey(n, dateOf) in g && n in g[DateKey(n, dateOf)]
    {
      OfDateMembers(ns, dateOf, DateKey(n, dateOf), n);
    }
    forall d | d in g
      ensures g[d] != [] && IsSubsequence(g[d], ns)
    {
      var n :| n in ns && DateKey(n, dateOf) == d;
      OfDateMembers(ns, dateOf, d, n);
      OfDateInOrder(ns, dateOf, d);
    }
  }

  /** No notifications, no buckets. */
  lemma GroupedEmpty(dateOf: string -> string)
    ensures Grouped([], dateOf) == map[]
  {
  }

  /** The total size of the buckets of the dates `ds`. */
  function SizeOf(ns: seq<Notification>, dateOf: string -> string, ds: seq<string>): nat
    decreases |ds|
  {
    if ds == [] then 0 else |OfDate(ns, dateOf, ds[0])| + SizeOf(ns, dateOf, ds[1..])
  }

  lemma {:induction false} SizeOfAppend(ns: seq<Notification>, dateOf: string -> string, ds: seq<string>, d: string)
    ensures SizeOf(ns, dateOf, ds + [d]) == SizeOf(ns, dateOf, ds) + |OfDate(ns, dateOf, d)|
    decreases |ds|
  {
    if ds != [] {
      assert (ds + [d])[1..] == ds[1..] + [d];
      SizeOfAppend(ns, dateOf, ds[1..], d);
    }
  }

  /** One more notification adds one to the size of the bucket of its date and nothing elsewhere. */
  lemma {:induction false} SizeOfSnoc(ns: seq<Notification>, n: Notification, dateOf: string -> string, ds: seq<string>)
    requires forall i, j :: 0 <= i < j < |ds| ==> ds[i] != ds[j]
    ensures SizeOf(ns + [n], dateOf, ds) == SizeOf(ns, dateOf, ds) + (if DateKey(n, dateOf) in ds then 1 else 0)
    decreases |ds|
  {
    if ds != [] {
      OfDateSnoc(ns, n, dateOf, ds[0]);
      SizeOfSnoc(ns, n, dateOf, ds[1..]);
      assert DateKey(n, dateOf) in ds <==> DateKey(n, dateOf) == ds[0] || DateKey(n, dateOf) in ds[1..];
      if DateKey(n, dateOf) == ds[0] {
        assert DateKey(n, dateOf) !in ds[1..];
      }
    }
  }

  /** The buckets together hold as many notifications as the input. */
  lemma {:induction false} GroupSizesSum(ns: seq<Notification>, dateOf: string -> string)
    ensures SizeOf(ns, dateOf, DateOrder(ns, dateOf)) == |ns|
    decreases |ns|
  {
    if ns != [] {
      var init := ns[..|ns| - 1];
      var last := ns[|ns| - 1];
      var d := DateKey(last, dateOf);
      var earlier := DateOrder(init, dateOf);
      assert ns == init + [last];
      GroupSizesSum(init, dateOf);
      DateOrderSpec(init, dateOf);
      SizeOfSnoc(init, last, dateOf, earlier);
      if d !in earlier {
        SizeOfAppend(ns, dateOf, earlier, d);
        OfDateSnoc(init, last, dateOf, d);
        OfDateMembersEmpty(init, dateOf, d);
      }
    }
  }

  /** One turn of the loop: the bucket of the date grows, and a new date is listed last. */
  lemma GroupStep(ns: seq<Notification>, i: nat, dateOf: string -> string,
                  groups: map<string, seq<Notification>>, dates: seq<string>)
    requires i < |ns|
    requires groups == Grouped(ns[..i], dateOf) && dates == DateOrder(ns[..i], dateOf)
    ensures var d := DateKey(ns[i], dateOf);
      var created := if d in groups then groups else groups[d := []];
      && created[d := created[d] + [ns[i]]] == Grouped(ns[..i + 1], dateOf)
      && (if d in groups then dates else dates + [d]) == DateOrder(ns[..i + 1], dateOf)
  {
    var seen := ns[..i];
    assert ns[..i + 1] == seen + [ns[i]];
    GroupedSnoc(seen, ns[i], dateOf);
    DateOrderSpec(seen, dateOf);
    assert (seen + [ns[i]])[..|seen|] == seen;
  }

  /**
   * `groupNotificationsByDate`: walks the list once, creating a bucket the
   * first time a date is met and pushing each notification onto its bucket.
   * Also returns the dates in bucket-creation order.
   */
  method GroupNotificationsByDate(notifications: seq<Notification>, dateOf: string -> string)
    returns (groups: map<string, seq<Notification>>, dates: seq<string>)
    ensures groups == Grouped(notifications, dateOf)
    ensures dates == DateOrder(notifications, dateOf)
  {
    groups := map[];
    dates := [];
    var i := 0;
    GroupedEmpty(dateOf);
    while i < |notifications|
      invariant 0 <= i <= |notifications|
      invariant groups == Grouped(notifications[..i], dateOf)
      invariant dates == DateOrder(notifications[..i], dateOf)
    {
      var notification := notifications[i];
      var date := dateOf(notification.timestamp);
      GroupStep(notifications, i, dateOf, groups, dates);
      if date !in groups {
        groups := groups[date := []];
        dates := dates + [date];
      }
      groups := groups[date := groups[date] + [notification]];
      i := i + 1;
    }
    assert notifications[..i] == notifications;
  }
}
