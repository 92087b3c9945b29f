/** Phone addresses of a conversation, deduplicated by number. */
module Addresses {
  /** What the phone sends: an array (as such or as the text of one), or text that is not a JSON array. */
  datatype RawAddresses = Listed(addresses: seq<string>) | Plain(text: string)

  function Digits(phone: string): string {
    if phone == [] then []
    else
      var rest := Digits(phone[..|phone| - 1]);
      if '0' <= phone[|phone| - 1] <= '9' then rest + [phone[|phone| - 1]] else rest
  }

  /** The last ten digits, or all of them if there are fewer. */
  function PhoneKey(phone: string): string {
    var digits := Digits(phone);
    if |digits| >= 10 then digits[|digits| - 10..] else digits
  }

  lemma {:induction false} DigitsConcat(a: string, b: string)
    ensures Digits(a + b) == Digits(a) + Digits(b)
  {
    if b == [] {
      assert a + b == a;
    } else {
      DigitsConcat(a, b[..|b| - 1]);
      assert (a + b)[..|a + b| - 1] == a + b[..|b| - 1];
    }
  }

  /** A country prefix, or anything else in front, does not change the key of a number of ten digits or more. */
  lemma PrefixDoesNotMatter(prefix: string, phone: string)
    requires |Digits(phone)| >= 10
    ensures PhoneKey(prefix + phone) == PhoneKey(phone) && |PhoneKey(phone)| == 10
  {
    DigitsConcat(prefix, phone);
  }

  /** Punctuation does not change the key. */
  lemma PunctuationDoesNotMatter(a: string, mark: char, b: string)
    requires !('0' <= mark <= '9')
    ensures PhoneKey(a + [mark] + b) == PhoneKey(a + b)
  {
    assert [mark][..0] == [];
    assert Digits([mark]) == [];
    DigitsConcat(a + [mark], b);
    DigitsConcat(a, [mark]);
    DigitsConcat(a, b);
  }

  /** Exactly the digits count, each as often as it occurs; the key is the last ten of them, or all. */
  lemma {:induction false} DigitsExactly(phone: string, c: char)
    ensures multiset(Digits(phone))[c] == if '0' <= c <= '9' then multiset(phone)[c] else 0
  {
    if phone != [] {
      var n := |phone| - 1;
      DigitsExactly(phone[..n], c);
      assert phone == phone[..n] + [phone[n]];
    }
  }

  /** The key ends the digits, and there are ten of it unless the number is shorter. */
  lemma KeyEndsDigits(phone: string) returns (front: string)
    ensures Digits(phone) == front + PhoneKey(phone)
    ensures if front == "" then |PhoneKey(phone)| <= 10 else |PhoneKey(phone)| == 10
  {
    front := Digits(phone)[..|Digits(phone)| - |PhoneKey(phone)|];
  }

  /** Some address of the list has this key. */
  ghost predicate Carries(addresses: seq<string>, key: string) {
    exists i :: 0 <= i < |addresses| && PhoneKey(addresses[i]) == key
  }

  function KeySet(addresses: seq<string>): set<string> {
    if addresses == [] then {} else KeySet(addresses[..|addresses| - 1]) + {PhoneKey(addresses[|addresses| - 1])}
  }

  function Dedupe(addresses: seq<string>): seq<string> {
    if addresses == [] then []
    else
      var head, last := Dedupe(addresses[..|addresses| - 1]), addresses[|addresses| - 1];
      if PhoneKey(last) == "" || PhoneKey(last) in KeySet(head) then head else head + [last]
  }

  method DedupeAddresses(addresses: seq<string>) returns (result: seq<string>)
    ensures result == Dedupe(addresses)
  {
    var seen: set<string> := {};
    result := [];
    var i := 0;
    while i < |addresses|
      invariant 0 <= i <= |addresses|
      invariant result == Dedupe(addresses[..i])
      invariant seen == KeySet(result)
    {
      var key := PhoneKey(addresses[i]);
      assert addresses[..i + 1][..i] == addresses[..i];
      if !(key == "" || key in seen) {
        seen := seen + {key};
        assert (result + [addresses[i]])[..|result|] == result;
        result := result + [addresses[i]];
      }
      i := i + 1;
    }
    assert addresses[..i] == addresses;
  }

  function Normalize(raw: RawAddresses): seq<string> {
    match raw
    case Listed(addresses) => Dedupe(addresses)
    case Plain(text) => Dedupe([text])
  }

  method NormalizeAddresses(raw: RawAddresses) returns (addresses: seq<string>)
    ensures addresses == Normalize(raw)
  {
    match raw {
      case Listed(list) => addresses := DedupeAddresses(list);
      case Plain(text) => addresses := DedupeAddresses([text]);
    }
  }

  // ----- what is kept -----

  lemma {:induction false} KeySetCarries(addresses: seq<string>, key: string)
    ensures key in KeySet(addresses) <==> Carries(addresses, key)
  {
    if addresses != [] {
      var n := |addresses| - 1;
      KeySetCarries(addresses[..n], key);
      CarriesSplit(addresses, key);
    }
  }

  lemma CarriesSplit(addresses: seq<string>, key: string)
    requires addresses != []
    ensures Carries(addresses, key)
       <==> (Carries(addresses[..|addresses| - 1], key) || PhoneKey(addresses[|addresses| - 1]) == key)
  {
    var n := |addresses| - 1;
    if Carries(addresses[..n], key) {
      var i :| 0 <= i < n && PhoneKey(addresses[..n][i]) == key;
      assert addresses[i] == addresses[..n][i];
    }
    if i :| 0 <= i < n && PhoneKey(addresses[i]) == key {
      assert addresses[i] == addresses[..n][i];
    }
  }

  /** The result carries exactly the non-empty keys of the input. */
  lemma {:induction false} DedupeCovers(addresses: seq<string>, key: string)
    ensures Carries(Dedupe(addresses), key) <==> key != "" && Carries(addresses, key)
  {
    if addresses != [] {
      var n := |addresses| - 1;
      var head := Dedupe(addresses[..n]);
      DedupeCovers(addresses[..n], key);
      CarriesSplit(addresses, key);
      KeySetCarries(head, PhoneKey(addresses[n]));
      if Dedupe(addresses) != head {
        CarriesSplit(Dedupe(addresses), key);
        assert (head + [addresses[n]])[..|head|] == head;
      }
    }
  }

  predicate FirstOfItsKey(addresses: seq<string>, i: int) {
    && 0 <= i < |addresses|
    && PhoneKey(addresses[i]) != ""
    && forall j | 0 <= j < i :: PhoneKey(addresses[j]) != PhoneKey(addresses[i])
  }

  /** An address that is kept carries a key that no address before it carries. */
  lemma KeptIsFirst(addresses: seq<string>)
    requires addresses != [] && Dedupe(addresses) != Dedupe(addresses[..|addresses| - 1])
    ensures FirstOfItsKey(addresses, |addresses| - 1)
    ensures !Carries(Dedupe(addresses[..|addresses| - 1]), PhoneKey(addresses[|addresses| - 1]))
  {
    var n := |addresses| - 1;
    var head, key := addresses[..n], PhoneKey(addresses[n]);
    KeySetCarries(Dedupe(head), key);
    DedupeCovers(head, key);
    forall j | 0 <= j < n ensures PhoneKey(addresses[j]) != key
    {
      assert head[j] == addresses[j];
    }
  }

  /** `ps` are the positions of the elements of `r`, in order, each the first of its key. */
  ghost predicate FirstsAt(addresses: seq<string>, r: seq<string>, ps: seq<int>) {
    && |ps| == |r|
    && (forall k | 0 <= k < |ps| :: FirstOfItsKey(addresses, ps[k]) && r[k] == addresses[ps[k]])
    && (forall j, k | 0 <= j < k < |ps| :: ps[j] < ps[k])
  }

  lemma FirstsExtend(addresses: seq<string>, r: seq<string>, ps: seq<int>)
    requires addresses != [] && FirstsAt(addresses[..|addresses| - 1], r, ps)
    ensures FirstsAt(addresses, r, ps)
    ensures forall k | 0 <= k < |ps| :: ps[k] < |addresses| - 1
  {
    var head := addresses[..|addresses| - 1];
    forall k | 0 <= k < |ps| ensures FirstOfItsKey(addresses, ps[k]) && r[k] == addresses[ps[k]]
    {
    }
  }

  lemma FirstsAppend(addresses: seq<string>, r: seq<string>, ps: seq<int>)
    requires FirstsAt(addresses, r, ps) && FirstOfItsKey(addresses, |addresses| - 1)
    requires forall k | 0 <= k < |ps| :: ps[k] < |addresses| - 1
    ensures FirstsAt(addresses, r + [addresses[|addresses| - 1]], ps + [|addresses| - 1])
  {
  }

  /**
   * The result is a subsequence: its elements stand, in order, at the positions where their key first occurs.
   * Nothing is reordered.
   */
  lemma {:induction false} DedupeKeepsFirsts(addresses: seq<string>) returns (ps: seq<int>)
    ensures FirstsAt(addresses, Dedupe(addresses), ps)
  {
    if addresses == [] {
      ps := [];
    } else {
      var head := Dedupe(addresses[..|addresses| - 1]);
      ps := DedupeKeepsFirsts(addresses[..|addresses| - 1]);
      FirstsExtend(addresses, head, ps);
      if Dedupe(addresses) != head {
        KeptIsFirst(addresses);
        FirstsAppend(addresses, head, ps);
        ps := ps + [|addresses| - 1];
      }
    }
  }

  /** No key is repeated. */
  lemma {:induction false} DedupeDistinct(addresses: seq<string>, j: int, k: int)
    requires 0 <= j < k < |Dedupe(addresses)|
    ensures PhoneKey(Dedupe(addresses)[j]) != PhoneKey(Dedupe(addresses)[k])
  {
    var n := |addresses| - 1;
    var head := Dedupe(addresses[..n]);
    if k < |head| {
      DedupeDistinct(addresses[..n], j, k);
    } else {
      KeptIsFirst(addresses);
      assert PhoneKey(head[j]) != PhoneKey(addresses[n]);
    }
  }
}
