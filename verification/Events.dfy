/**
 * Events, their tags, kinds and addresses (src/core/event.ts, tag.ts, kind.ts, util.ts), and the
 * newest-first order that sorting, limits and replaceable winners share.
 */
module Events {
  import opened Results

  type Tag = seq<string>

  datatype Event = Event(
    id: string,
    pubkey: string,
    kind: int,
    createdAt: int,
    tags: seq<Tag>,
    content: string,
    sig: string
  )

  const EVENT_DELETION := 5

  // ---- text ----

  function LowerChar(c: char): char {
    if 'A' <= c <= 'Z' then (c as int + 32) as char else c
  }

  /** toLowerCase on the letters A to Z. */
  function Lower(s: string): (r: string)
    ensures |r| == |s|
    ensures forall i :: 0 <= i < |s| ==> r[i] == LowerChar(s[i])
  {
    seq(|s|, i requires 0 <= i < |s| => LowerChar(s[i]))
  }

  predicate IsHexChar(c: char) {
    '0' <= c <= '9' || 'a' <= c <= 'f'
  }

  predicate IsHex(s: string, length: nat) {
    |s| == length && forall i :: 0 <= i < length ==> IsHexChar(s[i])
  }

  predicate IsHex32(s: string) {
    IsHex(s, 64)
  }

  lemma LowerHex(s: string)
    requires IsHex32(s)
    ensures Lower(s) == s
  {
  }

  lemma LowerTwice(s: string)
    ensures Lower(Lower(s)) == Lower(s)
  {
  }

  /** Plain code-unit order. */
  predicate StringLess(a: string, b: string) {
    b != [] && (a == [] || a[0] < b[0] || (a[0] == b[0] && StringLess(a[1..], b[1..])))
  }

  lemma {:induction false} StringLessTotal(a: string, b: string)
    ensures StringLess(a, b) || StringLess(b, a) || a == b
    ensures !(StringLess(a, b) && StringLess(b, a))
    ensures a == b ==> !StringLess(a, b)
  {
    if a != [] && b != [] && a[0] == b[0] {
      StringLessTotal(a[1..], b[1..]);
      assert a == [a[0]] + a[1..] && b == [b[0]] + b[1..];
    }
  }

  lemma {:induction false} StringLessTransitive(a: string, b: string, c: string)
    requires StringLess(a, b) && StringLess(b, c)
    ensures StringLess(a, c)
  {
    if a != [] && a[0] == b[0] == c[0] {
      StringLessTransitive(a[1..], b[1..], c[1..]);
    }
  }

  /** At the first place where two strings differ the lower character decides; a proper prefix comes first. */
  ghost predicate DiffersAt(a: string, b: string, i: nat) {
    && i <= |a| && i < |b| && a[..i] == b[..i] && (i < |a| ==> a[i] < b[i])
  }

  lemma {:induction false} StringLessMeans(a: string, b: string)
    ensures StringLess(a, b) <==> exists i: nat :: DiffersAt(a, b, i)
  {
    if a == [] {
      assert b != [] ==> DiffersAt(a, b, 0);
    } else if b != [] && a[0] == b[0] {
      StringLessMeans(a[1..], b[1..]);
      if i: nat :| DiffersAt(a[1..], b[1..], i) {
        assert a[..i + 1] == [a[0]] + a[1..][..i] && b[..i + 1] == [b[0]] + b[1..][..i];
        assert DiffersAt(a, b, i + 1);
      }
      if i: nat :| DiffersAt(a, b, i) {
        assert i > 0 && a[1..][..i - 1] == a[..i][1..] && b[1..][..i - 1] == b[..i][1..];
        assert DiffersAt(a[1..], b[1..], i - 1);
      }
    } else if b != [] {
      if a[0] < b[0] {
        assert DiffersAt(a, b, 0);
      }
      forall i: nat | 0 < i <= |a| && i < |b|
        ensures a[..i] != b[..i]
      {
        assert a[..i][0] == a[0] && b[..i][0] == b[0];
      }
    }
  }

  // ---- kinds ----

  predicate IsReplaceableKind(kind: int) {
    kind == 0 || kind == 3 || 10000 <= kind < 20000
  }

  predicate IsEphemeralKind(kind: int) {
    20000 <= kind < 30000
  }

  predicate IsAddressableKind(kind: int) {
    30000 <= kind < 40000
  }

  /** The structural check an event passes before it is stored. */
  predicate Canonical(e: Event) {
    && 0 <= e.kind <= 65535
    && IsHex32(e.pubkey)
    && (forall i :: 0 <= i < |e.tags| ==> e.tags[i] != [])
    && IsHex32(e.id)
    && IsHex(e.sig, 128)
  }

  // ---- addresses ----

  datatype Address = Address(kind: int, pubkey: string, identifier: string)

  /** The value of the first tag with that name that has a value. */
  function FirstTagValue(tags: seq<Tag>, name: string): Option<string> {
    if tags == [] then None
    else if |tags[0]| > 1 && tags[0][0] == name then Some(tags[0][1])
    else FirstTagValue(tags[1..], name)
  }

  function OrEmpty(value: Option<string>): string {
    if value.Some? then value.value else ""
  }

  /** Where a replaceable or addressable event lives. */
  function EventAddress(e: Event): Option<Address> {
    if IsAddressableKind(e.kind) then Some(Address(e.kind, Lower(e.pubkey), OrEmpty(FirstTagValue(e.tags, "d"))))
    else if IsReplaceableKind(e.kind) then Some(Address(e.kind, Lower(e.pubkey), ""))
    else None
  }

  /** The tag is a `d` tag with a value. */
  predicate IsD(tag: Tag) {
    |tag| > 1 && tag[0] == "d"
  }

  /** The first `d` tag that has a value has this one, or there is none and it is empty. */
  predicate HasD(tags: seq<Tag>, d: string) {
    || (exists i :: 0 <= i < |tags| && IsD(tags[i]) && tags[i][1] == d && forall j :: 0 <= j < i ==> !IsD(tags[j]))
    || (d == "" && forall j :: 0 <= j < |tags| ==> !IsD(tags[j]))
  }

  lemma {:induction false} FirstD(tags: seq<Tag>)
    ensures FirstTagValue(tags, "d").None? <==> forall j :: 0 <= j < |tags| ==> !IsD(tags[j])
    ensures FirstTagValue(tags, "d").Some? ==>
      exists i :: 0 <= i < |tags| && IsD(tags[i]) && tags[i][1] == FirstTagValue(tags, "d").value &&
        forall j :: 0 <= j < i ==> !IsD(tags[j])
  {
    if tags != [] {
      var rest := tags[1..];
      FirstD(rest);
      assert forall j :: 0 <= j < |rest| ==> rest[j] == tags[j + 1];
      if IsD(tags[0]) {
        assert tags[0][1] == FirstTagValue(tags, "d").value;
      } else if FirstTagValue(tags, "d").Some? {
        var i :| 0 <= i < |rest| && IsD(rest[i]) && rest[i][1] == FirstTagValue(tags, "d").value &&
          forall j :: 0 <= j < i ==> !IsD(rest[j]);
        forall j | 0 <= j < i + 1
          ensures !IsD(tags[j])
        {
          assert j > 0 ==> tags[j] == rest[j - 1];
        }
        assert IsD(tags[i + 1]) && tags[i + 1][1] == FirstTagValue(tags, "d").value;
      } else {
        assert forall j :: 0 < j < |tags| ==> tags[j] == rest[j - 1];
      }
    }
  }

  lemma DOnce(tags: seq<Tag>, d: string)
    ensures HasD(tags, d) <==> OrEmpty(FirstTagValue(tags, "d")) == d
  {
    FirstD(tags);
    if FirstTagValue(tags, "d").Some? {
      var i :| 0 <= i < |tags| && IsD(tags[i]) && tags[i][1] == FirstTagValue(tags, "d").value &&
        forall j :: 0 <= j < i ==> !IsD(tags[j]);
      if k :| 0 <= k < |tags| && IsD(tags[k]) && tags[k][1] == d && forall j :: 0 <= j < k ==> !IsD(tags[j]) {
        assert k == i;
      }
    }
  }

  /** Events of kinds 0, 3 and 10000 to 19999 live at an empty identifier, those from 30000 to 39999 at their `d`. */
  lemma AddressExactly(e: Event, a: Address)
    ensures EventAddress(e) == Some(a) <==>
      && a.kind == e.kind && a.pubkey == Lower(e.pubkey)
      && (((e.kind == 0 || e.kind == 3 || 10000 <= e.kind < 20000) && a.identifier == "") ||
          (30000 <= e.kind < 40000 && HasD(e.tags, a.identifier)))
  {
    DOnce(e.tags, a.identifier);
  }

  /** Two events take each other's place. */
  ghost predicate SamePlace(x: Event, y: Event) {
    && x.kind == y.kind && Lower(x.pubkey) == Lower(y.pubkey)
    && (|| x.kind == 0 || x.kind == 3 || 10000 <= x.kind < 20000
        || (30000 <= x.kind < 40000 && exists d :: HasD(x.tags, d) && HasD(y.tags, d)))
  }

  lemma SamePlaceIs(x: Event, y: Event)
    ensures SamePlace(x, y) <==> EventAddress(x).Some? && EventAddress(x) == EventAddress(y)
  {
    DOnce(x.tags, OrEmpty(FirstTagValue(x.tags, "d")));
    DOnce(y.tags, OrEmpty(FirstTagValue(x.tags, "d")));
    forall d
      ensures HasD(x.tags, d) <==> OrEmpty(FirstTagValue(x.tags, "d")) == d
      ensures HasD(y.tags, d) <==> OrEmpty(FirstTagValue(y.tags, "d")) == d
    {
      DOnce(x.tags, d);
      DOnce(y.tags, d);
    }
  }

  function Digits(n: nat): string {
    var last := [('0' as int + n % 10) as char];
    if n < 10 then last else Digits(n / 10) + last
  }

  predicate IsDigits(s: string) {
    forall i :: 0 <= i < |s| ==> '0' <= s[i] <= '9'
  }

  function Number(s: string): nat
    requires IsDigits(s)
  {
    if s == [] then 0 else 10 * Number(s[..|s| - 1]) + (s[|s| - 1] as int - '0' as int)
  }

  /** The first place of a character from `from` on. */
  function IndexOf(s: string, c: char, from: nat): (r: Option<nat>)
    requires from <= |s|
    ensures r.Some? ==> from <= r.value < |s| && s[r.value] == c
    decreases |s| - from
  {
    if from == |s| then None else if s[from] == c then Some(from) else IndexOf(s, c, from + 1)
  }

  /** The key under which the source files an address: `kind:pubkey:identifier`. */
  function FormatAddress(a: Address): string
    requires a.kind >= 0
  {
    Digits(a.kind) + ":" + Lower(a.pubkey) + ":" + a.identifier
  }

  function ParseAddress(value: string): Option<Address> {
    var first := IndexOf(value, ':', 0);
    if first.None? || first.value == 0 then None
    else
      var second := IndexOf(value, ':', first.value + 1);
      var kindText := value[..first.value];
      if second.None? || |kindText| > 5 || !IsDigits(kindText) || Number(kindText) > 65535 then None
      else
        var pubkey := Lower(value[first.value + 1..second.value]);
        if !IsHex32(pubkey) then None
        else Some(Address(Number(kindText), pubkey, value[second.value + 1..]))
  }

  predicate WellFormedAddress(a: Address) {
    0 <= a.kind <= 65535 && IsHex32(a.pubkey)
  }

  lemma {:induction false} DigitsNumber(n: nat)
    ensures Digits(n) != [] && IsDigits(Digits(n)) && Number(Digits(n)) == n
    ensures n < 10 ==> |Digits(n)| == 1
  {
    if n < 10 {
      var d := Digits(n);
      assert d[..0] == [];
    } else {
      DigitsNumber(n / 10);
      assert Digits(n)[..|Digits(n)| - 1] == Digits(n / 10);
    }
  }

  lemma {:induction false} DigitsLength(n: nat, k: nat, power: nat)
    requires 0 < k && n < power && power == Power10(k)
    ensures |Digits(n)| <= k
  {
    assert Power10(0) == 1;
    if n >= 10 {
      DigitsLength(n / 10, k - 1, Power10(k - 1));
    }
  }

  function Power10(k: nat): nat {
    if k == 0 then 1 else 10 * Power10(k - 1)
  }

  lemma {:induction false} IndexOfIs(s: string, c: char, from: nat, at: nat)
    requires from <= at < |s| && s[at] == c && forall i :: from <= i < at ==> s[i] != c
    ensures IndexOf(s, c, from) == Some(at)
    decreases at - from
  {
    if from < at {
      IndexOfIs(s, c, from + 1, at);
    }
  }

  /** Distinct addresses have distinct keys: the key can be read back. */
  lemma AddressRoundTrip(a: Address)
    requires WellFormedAddress(a)
    ensures ParseAddress(FormatAddress(a)) == Some(a)
  {
    var kindText, value := Digits(a.kind), FormatAddress(a);
    DigitsNumber(a.kind);
    assert Power10(5) == 100000 by {
      assert Power10(1) == 10 && Power10(2) == 100 && Power10(3) == 1000 && Power10(4) == 10000;
    }
    DigitsLength(a.kind, 5, 100000);
    LowerHex(a.pubkey);
    var n := |kindText|;
    assert value[..n] == kindText && value[n] == ':' && value[n + 1..n + 65] == a.pubkey && value[n + 65] == ':';
    assert value[n + 66..] == a.identifier;
    forall i | n + 1 <= i < n + 65
      ensures value[i] != ':'
    {
      assert value[i] == a.pubkey[i - n - 1];
    }
    IndexOfIs(value, ':', 0, n);
    IndexOfIs(value, ':', n + 1, n + 65);
  }

  /** `value` spells the address `a`, with its kind written as `kind` and its pubkey as `pubkey`. */
  predicate Spells(value: string, a: Address, kind: string, pubkey: string) {
    && value == kind + ":" + pubkey + ":" + a.identifier
    && 0 < |kind| <= 5 && IsDigits(kind) && Number(kind) == a.kind <= 65535
    && Lower(pubkey) == a.pubkey && IsHex32(a.pubkey)
  }

  /** What is read as an address: up to five decimal digits, a pubkey in any case, and whatever comes after. */
  lemma ParseExactly(value: string, a: Address)
    ensures ParseAddress(value) == Some(a) <==> exists kind, pubkey :: Spells(value, a, kind, pubkey)
  {
    hide Lower, IsHex32, Number;
    if ParseAddress(value) == Some(a) {
      var first := IndexOf(value, ':', 0).value;
      var second := IndexOf(value, ':', first + 1).value;
      var kind, pubkey := value[..first], value[first + 1..second];
      assert value == kind + ":" + pubkey + ":" + value[second + 1..];
      assert Spells(value, a, kind, pubkey);
    }
    if kind, pubkey :| Spells(value, a, kind, pubkey) {
      SpellsParses(value, a, kind, pubkey);
    }
  }

  lemma SpellsParses(value: string, a: Address, kind: string, pubkey: string)
    requires Spells(value, a, kind, pubkey)
    ensures ParseAddress(value) == Some(a)
  {
    hide Number;
    var n, m := |kind|, |kind| + 1 + |pubkey|;
    assert value[..n] == kind && value[n] == ':' && value[n + 1..m] == pubkey && value[m] == ':';
    assert value[m + 1..] == a.identifier;
    forall i | n + 1 <= i < m
      ensures value[i] != ':'
    {
      assert value[i] == pubkey[i - n - 1] && IsHexChar(Lower(pubkey)[i - n - 1]);
    }
    IndexOfIs(value, ':', 0, n);
    IndexOfIs(value, ':', n + 1, m);
  }

  // ---- orders ----

  /** compareEventsDesc is negative: newer first, then the lower id. */
  predicate Before(a: Event, b: Event) {
    a.createdAt > b.createdAt || (a.createdAt == b.createdAt && StringLess(a.id, b.id))
  }

  /** What a store remembers of an event it no longer holds. */
  datatype Mark = Mark(id: string, createdAt: int)

  /** isReplaceableWinner: newer, or as old with the lower id. */
  predicate Wins(candidate: Mark, incumbent: Mark) {
    if candidate.createdAt != incumbent.createdAt then candidate.createdAt > incumbent.createdAt
    else StringLess(candidate.id, incumbent.id)
  }

  function MarkOf(e: Event): Mark {
    Mark(e.id, e.createdAt)
  }

  /** The newest-first order and the order of winners are one strict total order on distinct ids. */
  lemma BeforeTotal(a: Event, b: Event)
    ensures Before(a, b) <==> Wins(MarkOf(a), MarkOf(b))
    ensures !(Before(a, b) && Before(b, a)) && !Before(a, a)
    ensures a.id != b.id ==> Before(a, b) || Before(b, a)
  {
    StringLessTotal(a.id, b.id);
    StringLessTotal(a.id, a.id);
  }

  lemma BeforeTransitive(a: Event, b: Event, c: Event)
    requires Before(a, b) && Before(b, c)
    ensures Before(a, c)
  {
    if a.createdAt == b.createdAt == c.createdAt {
      StringLessTransitive(a.id, b.id, c.id);
    }
  }

  lemma WinsTransitive(a: Mark, b: Mark, c: Mark)
    requires Wins(a, b) && Wins(b, c)
    ensures Wins(a, c)
  {
    if a.createdAt == b.createdAt == c.createdAt {
      StringLessTransitive(a.id, b.id, c.id);
    }
  }

  /** No two events share an id, as ids are hashes of the events. */
  ghost predicate OneEventPerId(events: set<Event>) {
    forall a, b :: a in events && b in events && a.id == b.id ==> a == b
  }
}
