/** The request message a client sends to the server: `<entityId>|<action>|<value>`. */
module Wire {
  import opened Wrappers
  import opened Decimal
  import opened Strings

  const FIELD_SEPARATOR: char := '|'

  datatype Message = Message(entityId: Int64, action: string, value: string)

  /** The text SendNetworkRequest formats, before its UTF-8 encoding. */
  function Encode(m: Message): string
  {
    IntToString(m.entityId) + [FIELD_SEPARATOR] + m.action + [FIELD_SEPARATOR] + m.value
  }

  /** The parse of OnMessageReceived: split on '|', discard a message with fewer than three
      parts or whose first part is not a `long`, and ignore any parts after the third. */
  function Parse(data: string): (r: Option<Message>)
    ensures Count(data, FIELD_SEPARATOR) < 2 ==> r == None
    ensures TryParseInt64(UpTo(data, FIELD_SEPARATOR)).None? ==> r == None
    ensures r.Some? ==> TryParseInt64(UpTo(data, FIELD_SEPARATOR)) == Some(r.value.entityId)
    ensures r.Some? <==> Count(data, FIELD_SEPARATOR) >= 2 && TryParseInt64(UpTo(data, FIELD_SEPARATOR)).Some?
    ensures r.Some? ==>
      && r.value.action == Split(data, FIELD_SEPARATOR)[1]
      && r.value.value == Split(data, FIELD_SEPARATOR)[2]
    ensures r.Some? ==> FIELD_SEPARATOR !in r.value.action && FIELD_SEPARATOR !in r.value.value
  {
    var parts := Split(data, FIELD_SEPARATOR);
    if |parts| < 3 then None
    else
      match TryParseInt64(parts[0])
      case None => None
      case Some(id) => Some(Message(id, parts[1], parts[2]))
  }

  lemma SeparatorNotInIntToString(n: int)
    ensures FIELD_SEPARATOR !in IntToString(n)
  {
    var d := NatToDigits(if n < 0 then -n else n);
    assert forall i :: 0 <= i < |d| ==> d[i] != FIELD_SEPARATOR;
  }

  /** The pieces of an encoded message: the id, the action and the pieces of the value. */
  lemma {:induction false} SplitEncode(m: Message)
    requires FIELD_SEPARATOR !in m.action
    ensures Split(Encode(m), FIELD_SEPARATOR)
         == [IntToString(m.entityId), m.action] + Split(m.value, FIELD_SEPARATOR)
  {
    SeparatorNotInIntToString(m.entityId);
    SplitTwoPieces(IntToString(m.entityId), m.action, m.value, FIELD_SEPARATOR);
  }

  /** On the wire the value keeps only what comes before its first '|': for an action
      without '|', the server parses the same id and action and the value up to its
      first '|'. */
  lemma {:induction false} ParseEncodeTruncates(m: Message)
    requires FIELD_SEPARATOR !in m.action
    ensures Parse(Encode(m)) == Some(m.(value := UpTo(m.value, FIELD_SEPARATOR)))
  {
    var parts := Split(Encode(m), FIELD_SEPARATOR);
    SplitEncode(m);
    assert parts[0] == IntToString(m.entityId);
    TryParseInt64ToString(m.entityId);
  }

  /** Round trip: a message whose action and value contain no '|' parses back to itself. */
  lemma ParseEncode(m: Message)
    requires FIELD_SEPARATOR !in m.action && FIELD_SEPARATOR !in m.value
    ensures Parse(Encode(m)) == Some(m)
  {
    ParseEncodeTruncates(m);
  }
}
