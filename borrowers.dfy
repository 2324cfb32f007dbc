/** Borrower discovery from `Borrowed` event logs: the borrower address in a log topic,
    first-seen de-duplication, and the exclusion of borrowers already tracked.
    Both engine variants use these definitions unchanged. */
module Borrowers {
  import opened Common

  /** An event log as the provider returns it; only its topics are read. */
  datatype Log = Log(topics: seq<string>)

  predicate IsHexDigit(c: char) {
    '0' <= c <= '9' || 'a' <= c <= 'f' || 'A' <= c <= 'F'
  }

  /** ethers' `isHexString`: "0x" followed by hex digits. */
  predicate IsHexString(s: string) {
    |s| >= 2 && s[0] == '0' && s[1] == 'x' && forall i :: 2 <= i < |s| ==> IsHexDigit(s[i])
  }

  /** A 20-byte account address: "0x" and 40 hex digits. */
  predicate IsAddress(a: string) {
    IsHexString(a) && |a| == 42
  }

  /** A 32-byte log topic: "0x" and 64 hex digits. */
  predicate IsTopic(t: string) {
    IsHexString(t) && |t| == 66
  }

  function Zeros(n: nat): (z: string)
    ensures |z| == n && forall i :: 0 <= i < n ==> z[i] == '0'
  {
    seq(n, _ => '0')
  }

  /** The topic under which an indexed address argument is logged: the address left-padded to 32 bytes. */
  function AddressTopic(a: Address): (t: string)
    requires IsAddress(a)
    ensures IsTopic(t) && t[26..] == a[2..]
  {
    "0x" + Zeros(24) + a[2..]
  }

  /** The hex digits left once the leading '0' digits are dropped. */
  function StripLeadingZeros(digits: string): (r: string)
    ensures |r| <= |digits| && r == digits[|digits| - |r|..]
    ensures forall i :: 0 <= i < |digits| - |r| ==> digits[i] == '0'
    ensures r == [] || r[0] != '0'
  {
    if digits != [] && digits[0] == '0' then StripLeadingZeros(digits[1..]) else digits
  }

  /** ethers' `hexStripZeros` on a string, which the bot applies to `log.topics[1]` (AS WRITTEN). */
  function HexStripZeros(hex: string): (r: Result<string>)
    ensures r.Success? <==> IsHexString(hex)
    ensures r.Success? ==> IsHexString(r.value) && (|r.value| == 2 || r.value[2] != '0')
  {
    if IsHexString(hex) then
      var digits := StripLeadingZeros(hex[2..]);
      assert forall i :: 0 <= i < |digits| ==> digits[i] == hex[|hex| - |digits| + i];
      Success("0x" + digits)
    else Failure(MalformedLog)
  }

  lemma {:induction false} StripZerosPadding(n: nat, s: string)
    ensures StripLeadingZeros(Zeros(n) + s) == StripLeadingZeros(s)
  {
    if n > 0 {
      assert (Zeros(n) + s)[1..] == Zeros(n - 1) + s;
      StripZerosPadding(n - 1, s);
    } else {
      assert Zeros(n) + s == s;
    }
  }

  /** As written, the bot recovers every address whose first hex digit is not 0 ... */
  lemma HexStripZerosKeepsAddress(a: Address)
    requires IsAddress(a) && a[2] != '0'
    ensures HexStripZeros(AddressTopic(a)) == Success(a)
  {
    var t := AddressTopic(a);
    assert t[2..] == Zeros(24) + a[2..];
    StripZerosPadding(24, a[2..]);
    assert "0x" + a[2..] == a;
  }

  /** ... but an address whose first hex digit is 0 comes back shortened, no longer a 20-byte address,
      so the later `core.vaults(account)` call cannot encode it. */
  lemma HexStripZerosShortensAddress(a: Address)
    requires IsAddress(a) && a[2] == '0'
    ensures HexStripZeros(AddressTopic(a)).Success?
    ensures |HexStripZeros(AddressTopic(a)).value| < |a|
    ensures HexStripZeros(AddressTopic(a)).value != a && !IsAddress(HexStripZeros(AddressTopic(a)).value)
  {
    var t := AddressTopic(a);
    assert t[2..] == Zeros(24) + a[2..];
    StripZerosPadding(24, a[2..]);
    assert |StripLeadingZeros(a[2..])| < 40;
  }

  /** The borrower address in a topic: its last 20 bytes (ethers' `hexDataSlice(topic, 12)`),
      the extraction the bot evidently intends and the one this model uses. */
  function TopicAddress(topic: string): (r: Result<Address>)
    ensures r.Success? <==> IsTopic(topic)
    ensures r.Success? ==> IsAddress(r.value)
  {
    if IsTopic(topic) then Success("0x" + topic[26..]) else Failure(MalformedLog)
  }

  /** The corrected extraction recovers every address from the topic it is logged under. */
  lemma TopicAddressRoundTrip(a: Address)
    requires IsAddress(a)
    ensures TopicAddress(AddressTopic(a)) == Success(a)
  {
    assert "0x" + a[2..] == a;
  }

  /** The borrower of one `Borrowed` log (topic 1); a log without that topic makes the bot throw. */
  function BorrowerOf(log: Log): Result<Address> {
    if |log.topics| < 2 then Failure(MalformedLog) else TopicAddress(log.topics[1])
  }

  /** `logs.map(log => borrower of log)`: one address per log, in log order. */
  function BorrowersFromLogs(logs: seq<Log>): (r: Result<seq<Address>>)
    ensures r.Success? <==> forall i :: 0 <= i < |logs| ==> BorrowerOf(logs[i]).Success?
    ensures r.Failure? ==> r.error == MalformedLog
    ensures r.Success? ==> |r.value| == |logs|
    ensures r.Success? ==> forall i :: 0 <= i < |logs| ==> r.value[i] == BorrowerOf(logs[i]).value
  {
    if logs == [] then Success([])
    else match BorrowerOf(logs[0])
      case Failure(e) => Failure(e)
      case Success(b) =>
        match BorrowersFromLogs(logs[1..])
        case Failure(e) => Failure(e)
        case Success(rest) => Success([b] + rest)
  }

  /** JavaScript's `Array.indexOf`: the first index holding `x`, or -1. */
  function IndexOf<T(==)>(s: seq<T>, x: T): (i: int)
    ensures -1 <= i < |s|
    ensures i == -1 <==> x !in s
    ensures 0 <= i ==> s[i] == x && forall j :: 0 <= j < i ==> s[j] != x
  {
    if s == [] then -1
    else if s[0] == x then 0
    else
      var k := IndexOf(s[1..], x);
      if k == -1 then -1 else k + 1
  }

  /** The entries of s[i..] that sit at the first index of their value. */
  function FirstOccurrencesFrom<T(==)>(s: seq<T>, i: nat): seq<T>
    requires i <= |s|
    decreases |s| - i
  {
    if i == |s| then []
    else (if IndexOf(s, s[i]) == i then [s[i]] else []) + FirstOccurrencesFrom(s, i + 1)
  }

  lemma {:induction false} FirstOccurrencesMembers<T(!new)>(s: seq<T>, i: nat)
    requires i <= |s|
    ensures forall x :: x in FirstOccurrencesFrom(s, i) <==> x in s && IndexOf(s, x) >= i
    decreases |s| - i
  {
    if i < |s| {
      FirstOccurrencesMembers(s, i + 1);
      var rest := FirstOccurrencesFrom(s, i + 1);
      var head := if IndexOf(s, s[i]) == i then [s[i]] else [];
      assert FirstOccurrencesFrom(s, i) == head + rest;
      forall x | x in head + rest
        ensures x in s && IndexOf(s, x) >= i
      {
        if x !in rest {
          assert x == s[i];
        }
      }
      forall x | x in s && IndexOf(s, x) >= i
        ensures x in head + rest
      {
        if IndexOf(s, x) == i {
          assert s[i] == x;
        } else {
          assert x in rest;
        }
      }
    }
  }

  lemma {:induction false} FirstOccurrencesOrdered<T(!new)>(s: seq<T>, i: nat)
    requires i <= |s|
    ensures forall a, b :: 0 <= a < b < |FirstOccurrencesFrom(s, i)| ==>
      IndexOf(s, FirstOccurrencesFrom(s, i)[a]) < IndexOf(s, FirstOccurrencesFrom(s, i)[b])
    decreases |s| - i
  {
    if i < |s| {
      FirstOccurrencesOrdered(s, i + 1);
      FirstOccurrencesMembers(s, i + 1);
      var rest := FirstOccurrencesFrom(s, i + 1);
      if IndexOf(s, s[i]) == i {
        var r := [s[i]] + rest;
        assert FirstOccurrencesFrom(s, i) == r;
        forall a, b | 0 <= a < b < |r| ensures IndexOf(s, r[a]) < IndexOf(s, r[b]) {
          assert r[b] == rest[b - 1];
          assert IndexOf(s, r[b]) >= i + 1;
          if a > 0 {
            assert r[a] == rest[a - 1];
          } else {
            assert r[a] == s[i];
          }
        }
      } else {
        assert FirstOccurrencesFrom(s, i) == rest;
      }
    }
  }

  lemma OrderedIsDistinct<T>(s: seq<T>, r: seq<T>)
    requires forall a, b :: 0 <= a < b < |r| ==> IndexOf(s, r[a]) < IndexOf(s, r[b])
    ensures NoDuplicates(r)
  {
    forall a, b | 0 <= a < b < |r| ensures r[a] != r[b] {
      assert IndexOf(s, r[a]) < IndexOf(s, r[b]);
    }
  }

  /** `borrowers.filter((addr, index, self) => self.indexOf(addr) === index)`: each value once,
      at the position where it first occurs. */
  function Unique<T(==,!new)>(s: seq<T>): (r: seq<T>)
    ensures forall x :: x in r <==> x in s
    ensures NoDuplicates(r)
    ensures forall a, b :: 0 <= a < b < |r| ==> IndexOf(s, r[a]) < IndexOf(s, r[b])
  {
    FirstOccurrencesMembers(s, 0);
    FirstOccurrencesOrdered(s, 0);
    OrderedIsDistinct(s, FirstOccurrencesFrom(s, 0));
    FirstOccurrencesFrom(s, 0)
  }

  lemma {:induction false} FirstOccurrencesOfDistinct<T>(s: seq<T>, i: nat)
    requires i <= |s| && NoDuplicates(s)
    ensures FirstOccurrencesFrom(s, i) == s[i..]
    decreases |s| - i
  {
    if i < |s| {
      FirstOccurrencesOfDistinct(s, i + 1);
      assert IndexOf(s, s[i]) == i;
      assert [s[i]] + s[i + 1..] == s[i..];
    }
  }

  /** De-duplicating a list that has no duplicates changes nothing. */
  lemma UniqueOfDistinct<T(!new)>(s: seq<T>)
    requires NoDuplicates(s)
    ensures Unique(s) == s
  {
    FirstOccurrencesOfDistinct(s, 0);
  }

  function NotIn(known: seq<Address>): Address -> bool {
    b => b !in known
  }

  /** `_getNewBorrowers`: the unique borrowers of `logs`, in first-seen order, without those in `known`. */
  function NewBorrowers(logs: seq<Log>, known: seq<Address>): (r: Result<seq<Address>>)
    ensures r.Success? <==> BorrowersFromLogs(logs).Success?
    ensures r.Failure? ==> r.error == MalformedLog
    ensures r.Success? ==> NoDuplicates(r.value)
    ensures r.Success? ==> forall b :: b in r.value <==> b in BorrowersFromLogs(logs).value && b !in known
    ensures r.Success? ==> IsSubsequence(r.value, Unique(BorrowersFromLogs(logs).value))
  {
    match BorrowersFromLogs(logs)
    case Failure(e) => Failure(e)
    case Success(bs) =>
      FilterNoDuplicates(Unique(bs), NotIn(known));
      FilterIsSubsequence(Unique(bs), NotIn(known));
      Success(Filter(Unique(bs), NotIn(known)))
  }

  /** Appending the new borrowers to a duplicate-free list keeps it duplicate-free. */
  lemma AppendNewBorrowersKeepsDistinct(logs: seq<Log>, known: seq<Address>)
    requires NoDuplicates(known)
    requires NewBorrowers(logs, known).Success?
    ensures NoDuplicates(known + NewBorrowers(logs, known).value)
  {
    var found := NewBorrowers(logs, known).value;
    var all := known + found;
    forall i, j | 0 <= i < j < |all| ensures all[i] != all[j] {
      if j >= |known| {
        assert all[j] == found[j - |known|];
        if i >= |known| {
          assert all[i] == found[i - |known|];
        } else {
          assert all[i] in known;
        }
      }
    }
  }

  /** Scanning the same logs again after appending what they gave finds nobody new. */
  lemma RescanFindsNobody(logs: seq<Log>, known: seq<Address>)
    requires NewBorrowers(logs, known).Success?
    ensures NewBorrowers(logs, known + NewBorrowers(logs, known).value) == Success([])
  {
    var found := NewBorrowers(logs, known).value;
    var again := NewBorrowers(logs, known + found);
    var bs := BorrowersFromLogs(logs).value;
    assert forall b :: b in Unique(bs) ==> b in known + found;
    FilterKeepsNone(Unique(bs), NotIn(known + found));
  }
}
