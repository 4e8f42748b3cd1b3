/** `MailUtils`: array concatenation that hands back one of its arguments
    when the other is null or empty, and the choice of a message's sender
    address (the Sender header, else the first Internet address of From
    followed by Reply-To; section 3.6.2 of RFC 5322). Java's null arrays are
    `None`, null elements `None` entries. */
module MailUtils {
  import opened MailTypes

  /** A JavaMail `Address`: an e-mail address or a newsgroup. */
  datatype Address = Internet(address: string) | Newsgroup(name: string)

  /** `concat(first, second)`. */
  function Concat<T>(first: Option<seq<T>>, second: Option<seq<T>>): (r: Option<seq<T>>)
    ensures first.None? || first.value == [] ==> r == second
    ensures first.Some? && first.value != [] && (second.None? || second.value == []) ==> r == first
    ensures first.Some? && first.value != [] && second.Some? && second.value != [] ==>
      r.Some? && |r.value| == |first.value| + |second.value|
    ensures r.Some? && first.Some? ==> r.value[..|first.value|] == first.value
    ensures r.Some? && second.Some? && first.Some? && first.value != [] && second.value != [] ==>
      r.value[|first.value|..] == second.value
  {
    if first.None? || first.value == [] then second
    else if second.None? || second.value == [] then first
    else Some(first.value + second.value)
  }

  /** The elements of a possibly null array. */
  function Elements<T>(a: Option<seq<T>>): seq<T> {
    if a.None? then [] else a.value
  }

  /** Apart from which null comes back, `concat` treats a null array as an
      empty one: its elements are those of `first` followed by those of
      `second`, and it is null exactly when both are null or `first` is
      empty and `second` null. */
  lemma ConcatElements<T>(first: Option<seq<T>>, second: Option<seq<T>>)
    ensures Elements(Concat(first, second)) == Elements(first) + Elements(second)
    ensures Concat(first, second).None? <==> (first.None? || first.value == []) && second.None?
  {
    if first.None? || first.value == [] {
      assert Elements(first) + Elements(second) == Elements(second);
    } else if second.None? || second.value == [] {
      assert Elements(first) + Elements(second) == Elements(first);
    }
  }

  predicate IsInternet(a: Option<Address>) {
    a.Some? && a.value.Internet?
  }

  /** The index of the first non-null Internet address. */
  function FirstInternet(addrs: seq<Option<Address>>): (r: Option<nat>)
    ensures r.Some? ==> r.value < |addrs| && IsInternet(addrs[r.value])
    ensures r.Some? ==> forall j :: 0 <= j < r.value ==> !IsInternet(addrs[j])
    ensures r.None? <==> forall j :: 0 <= j < |addrs| ==> !IsInternet(addrs[j])
  {
    if addrs == [] then None
    else if IsInternet(addrs[0]) then Some(0)
    else
      var rest := FirstInternet(addrs[1..]);
      assert forall j :: 1 <= j < |addrs| ==> addrs[j] == addrs[1..][j - 1];
      if rest.None? then None else Some(rest.value + 1)
  }

  /** What `getSenderAddress` returns: the Sender address when there is
      one, else the first Internet address of From and then Reply-To, else
      null. */
  function SenderAddress(sender: Option<string>, from: Option<seq<Option<Address>>>,
                         replyTo: Option<seq<Option<Address>>>): Option<string>
  {
    if sender.Some? then sender
    else
      var addrs := Elements(Concat(from, replyTo));
      var i := FirstInternet(addrs);
      if i.None? then None else Some(addrs[i.value].value.address)
  }

  /** `getSenderAddress(message)`. */
  method GetSenderAddress(sender: Option<string>, from: Option<seq<Option<Address>>>,
                          replyTo: Option<seq<Option<Address>>>) returns (r: Option<string>)
    ensures r == SenderAddress(sender, from, replyTo)
  {
    r := sender;
    if r.None? {
      var addresses := Concat(from, replyTo);
      if addresses.Some? {
        var addrs := addresses.value;
        var i := 0;
        while i < |addrs|
          invariant 0 <= i <= |addrs|
          invariant forall j :: 0 <= j < i ==> !IsInternet(addrs[j])
        {
          if addrs[i].Some? && addrs[i].value.Internet? {
            assert FirstInternet(addrs) == Some(i);
            return Some(addrs[i].value.address);
          }
          i := i + 1;
        }
      }
    }
  }

  /** The Sender header always wins; without it, an Internet address in
      From wins over every Reply-To address, and Reply-To is used only when
      From has none; with no Internet address anywhere the result is null. */
  lemma {:induction false} SenderAddressChoice(sender: Option<string>, from: Option<seq<Option<Address>>>,
                                               replyTo: Option<seq<Option<Address>>>)
    ensures sender.Some? ==> SenderAddress(sender, from, replyTo) == sender
    ensures sender.None? && FirstInternet(Elements(from)).Some? ==>
      SenderAddress(sender, from, replyTo) == Some(Elements(from)[FirstInternet(Elements(from)).value].value.address)
    ensures sender.None? && FirstInternet(Elements(from)).None? && FirstInternet(Elements(replyTo)).Some? ==>
      SenderAddress(sender, from, replyTo) == Some(Elements(replyTo)[FirstInternet(Elements(replyTo)).value].value.address)
    ensures sender.None? && FirstInternet(Elements(from)).None? && FirstInternet(Elements(replyTo)).None? ==>
      SenderAddress(sender, from, replyTo).None?
  {
    if sender.None? {
      var f, t := Elements(from), Elements(replyTo);
      ConcatElements(from, replyTo);
      var all := f + t;
      assert Elements(Concat(from, replyTo)) == all;
      FirstOfAppend(f, t);
    }
  }

  /** The first Internet address of `a + b` is the first of `a` if `a` has
      one, else the first of `b`, shifted past `a`. */
  lemma {:induction false} FirstOfAppend(a: seq<Option<Address>>, b: seq<Option<Address>>)
    ensures FirstInternet(a).Some? ==> FirstInternet(a + b) == FirstInternet(a)
    ensures FirstInternet(a).None? && FirstInternet(b).Some? ==> FirstInternet(a + b) == Some(|a| + FirstInternet(b).value)
    ensures FirstInternet(a).None? && FirstInternet(b).None? ==> FirstInternet(a + b).None?
    decreases |a|
  {
    if a == [] {
      assert a + b == b;
    } else {
      assert (a + b)[0] == a[0];
      if !IsInternet(a[0]) {
        assert (a + b)[1..] == a[1..] + b;
        FirstOfAppend(a[1..], b);
      }
    }
  }
}
