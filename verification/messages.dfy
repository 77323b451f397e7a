/** The records the IMAP reader works with: what the server returns for one
    fetched message, and the normalised `Email` the tools hand back, together
    with the rendering of an envelope's address list.
 */
module Messages {
  import opened Wrappers
  import opened Text

  /** One entry of an envelope address list. */
  datatype Address = Address(personalName: string, mailboxName: string, hostName: string)

  /** The parts of an envelope the reader uses; nil list entries are `None`. */
  datatype Envelope = Envelope(from: seq<Option<Address>>, subject: string)

  /** One message of a fetch reply. `envelope` is `None` when the server sent
      none; `body` is `None` when the text section is missing or could not
      be read. Dates are timestamps. */
  datatype RawMessage = RawMessage(uid: uint32, internalDate: int, envelope: Option<Envelope>, body: Option<string>)

  /** The normalised record (`fetch.Email`). */
  datatype Email = Email(uid: uint32, internalDate: int, from: string, subject: string, body: string)

  // ---------------------------------------------------------------------
  // formatAddressList

  /** `mailbox@host`, or the bare mailbox name when the host is empty. */
  function FullAddress(a: Address): (r: string)
    ensures a.hostName != "" ==> r == a.mailboxName + "@" + a.hostName
    ensures a.hostName == "" ==> r == a.mailboxName
  {
    if a.hostName != "" then a.mailboxName + "@" + a.hostName else a.mailboxName
  }

  /** One rendered entry: `Name <full>` when a personal name is present. */
  function FormatAddress(a: Address): (r: string)
    ensures a.personalName != "" ==> r == a.personalName + " <" + FullAddress(a) + ">"
    ensures a.personalName == "" ==> r == FullAddress(a)
  {
    if a.personalName != "" then a.personalName + " <" + FullAddress(a) + ">" else FullAddress(a)
  }

  /** The number of non-nil entries. */
  function Present(list: seq<Option<Address>>): nat
    decreases |list|
  {
    if list == [] then 0 else (if list[0].Some? then 1 else 0) + Present(list[1..])
  }

  /** The rendered entries, nil ones skipped, in input order. */
  function AddressParts(list: seq<Option<Address>>): (parts: seq<string>)
    ensures |parts| == Present(list)
    decreases |list|
  {
    if list == [] then []
    else match list[0]
      case None => AddressParts(list[1..])
      case Some(a) => [FormatAddress(a)] + AddressParts(list[1..])
  }

  /** Go's `formatAddressList`: the rendered entries joined by `", "`. */
  function FormatAddressList(list: seq<Option<Address>>): (r: string)
    ensures Present(list) == 0 ==> r == ""
    ensures |list| == 1 && list[0].Some? ==> r == FormatAddress(list[0].value)
  {
    Join(AddressParts(list), ", ")
  }

  lemma {:induction false} AddressPartsAppend(a: seq<Option<Address>>, b: seq<Option<Address>>)
    ensures AddressParts(a + b) == AddressParts(a) + AddressParts(b)
    decreases |a|
  {
    if a == [] {
      assert a + b == b;
    } else {
      assert (a + b)[0] == a[0] && (a + b)[1..] == a[1..] + b;
      AddressPartsAppend(a[1..], b);
      var head := if a[0].Some? then [FormatAddress(a[0].value)] else [];
      assert AddressParts(a) == head + AddressParts(a[1..]);
      assert AddressParts(a + b) == head + AddressParts(a[1..] + b);
      assert head + (AddressParts(a[1..]) + AddressParts(b)) == (head + AddressParts(a[1..])) + AddressParts(b);
    }
  }

  /** Input order is kept and entries are separated by exactly one `", "`:
      the rendering of a concatenation is the two renderings joined. */
  lemma FormatAddressListAppend(a: seq<Option<Address>>, b: seq<Option<Address>>)
    requires Present(a) > 0 && Present(b) > 0
    ensures FormatAddressList(a + b) == FormatAddressList(a) + ", " + FormatAddressList(b)
  {
    AddressPartsAppend(a, b);
    JoinAppend(AddressParts(a), AddressParts(b), ", ");
  }

  /** Nil entries contribute nothing, wherever they stand. */
  lemma NilEntryIgnored(a: seq<Option<Address>>, b: seq<Option<Address>>)
    ensures FormatAddressList(a + [None] + b) == FormatAddressList(a + b)
  {
    assert AddressParts([None]) == [];
    AddressPartsAppend(a + [None], b);
    AddressPartsAppend(a, [None]);
    AddressPartsAppend(a, b);
    assert AddressParts(a + [None]) == AddressParts(a);
  }

  // ---------------------------------------------------------------------
  // normalisation of a fetch reply

  /** A reply entry the reader keeps: present and with an envelope. */
  predicate Kept(m: Option<RawMessage>) {
    m.Some? && m.value.envelope.Some?
  }

  /** One kept message as an `Email`: uid, date and subject unchanged, the
      sender rendered, the body trimmed (empty when unavailable). */
  function ToEmail(m: RawMessage): (e: Email)
    requires m.envelope.Some?
    ensures e.uid == m.uid && e.internalDate == m.internalDate
    ensures e.subject == m.envelope.value.subject
    ensures e.from == FormatAddressList(m.envelope.value.from)
    ensures m.body.None? ==> e.body == ""
    ensures m.body.Some? ==> e.body == TrimSpace(m.body.value)
    ensures e.body != "" ==> !IsSpace(e.body[0]) && !IsSpace(e.body[|e.body| - 1])
  {
    Email(m.uid, m.internalDate, FormatAddressList(m.envelope.value.from), m.envelope.value.subject,
          if m.body.Some? then TrimSpace(m.body.value) else "")
  }

  /** Number of kept entries. */
  function KeptCount(reply: seq<Option<RawMessage>>): nat
    decreases |reply|
  {
    if reply == [] then 0 else (if Kept(reply[0]) then 1 else 0) + KeptCount(reply[1..])
  }

  /** The reader's loop over the reply: entries without an envelope are
      dropped, the others become `Email`s. */
  function Normalise(reply: seq<Option<RawMessage>>): (emails: seq<Email>)
    ensures |emails| == KeptCount(reply) <= |reply|
    ensures forall i :: 0 <= i < |reply| && Kept(reply[i]) ==> ToEmail(reply[i].value) in emails
    ensures forall e :: e in emails ==> exists i :: 0 <= i < |reply| && Kept(reply[i]) && e == ToEmail(reply[i].value)
    decreases |reply|
  {
    if reply == [] then []
    else
      var rest := Normalise(reply[1..]);
      assert forall i :: 1 <= i < |reply| ==> reply[i] == reply[1..][i - 1];
      if Kept(reply[0]) then [ToEmail(reply[0].value)] + rest else rest
  }

  /** Normalisation works entry by entry, so it keeps reply order. */
  lemma {:induction false} NormaliseAppend(a: seq<Option<RawMessage>>, b: seq<Option<RawMessage>>)
    ensures Normalise(a + b) == Normalise(a) + Normalise(b)
    decreases |a|
  {
    if a == [] {
      assert a + b == b;
    } else {
      assert (a + b)[1..] == a[1..] + b;
      NormaliseAppend(a[1..], b);
    }
  }
}
