/** Blocks and the request path: a request is applied at once where this instance is the
    server, and otherwise sent to the server, which parses it, looks the block up and
    applies it there. */
module Blocks {
  import opened Wrappers
  import opened Decimal
  import opened Strings
  import opened Thrusters
  import opened Rename
  import opened Wire
  import opened Numbering

  /** A terminal block as the renamer sees it: only CustomName is changed in place. */
  class Block {
    const entityId: Int64
    /** The entity id of the block's CubeGrid. */
    const gridId: Int64
    /** DefinitionDisplayNameText: the block type's display name. */
    const displayName: string
    /** GridThrustDirection when the block is a thruster, None otherwise. */
    const thrust: Option<Direction>
    var customName: string

    constructor (entityId: Int64, gridId: Int64, displayName: string,
                 thrust: Option<Direction>, customName: string)
      ensures this.entityId == entityId && this.gridId == gridId
      ensures this.displayName == displayName && this.thrust == thrust
      ensures this.customName == customName
    {
      this.entityId := entityId;
      this.gridId := gridId;
      this.displayName := displayName;
      this.thrust := thrust;
      this.customName := customName;
    }

    /** ApplyAction on this block. */
    method ApplyAction(action: string, value: string, regex: RegexReplace)
      modifies this
      ensures customName == Renamed(old(customName), displayName, thrust, action, value, regex)
    {
      customName := Renamed(customName, displayName, thrust, action, value, regex);
    }
  }

  /** SendNetworkRequest: on the server the request is applied directly and nothing is
      sent; on a client the block is left alone and the encoded request is returned as the
      message for the server. */
  method SendNetworkRequest(isServer: bool, block: Block, action: string, value: string,
                            regex: RegexReplace)
    returns (outgoing: Option<string>)
    modifies block
    ensures isServer ==>
      && outgoing == None
      && block.customName == Renamed(old(block.customName), block.displayName, block.thrust, action, value, regex)
    ensures !isServer ==>
      && outgoing == Some(Encode(Message(block.entityId, action, value)))
      && block.customName == old(block.customName)
  {
    if isServer {
      block.ApplyAction(action, value, regex);
      outgoing := None;
    } else {
      outgoing := Some(Encode(Message(block.entityId, action, value)));
    }
  }

  /** Which request OnMessageReceived applies: only a server acts, only on a message that
      parses, and only when the id names a terminal block in `known`. */
  function Route(isServer: bool, data: string, known: set<Int64>): (r: Option<Message>)
    ensures !isServer ==> r == None
    ensures r.Some? ==> Parse(data) == r && r.value.entityId in known
    ensures isServer && Parse(data).Some? && Parse(data).value.entityId in known ==> r == Parse(data)
  {
    if !isServer then None
    else
      match Parse(data)
      case None => None
      case Some(m) => if m.entityId in known then Some(m) else None
  }

  /** OnMessageReceived: `entities` maps entity ids to the terminal blocks GetEntityById
      finds. At most the one addressed block is renamed, by the parsed request; every
      other block keeps its name. */
  method OnMessageReceived(isServer: bool, data: string, entities: map<Int64, Block>,
                           regex: RegexReplace)
    returns (handled: Option<Message>)
    modifies entities.Values
    ensures handled == Route(isServer, data, entities.Keys)
    ensures handled.Some? ==>
      var b := entities[handled.value.entityId];
      b.customName == Renamed(old(b.customName), b.displayName, b.thrust,
                              handled.value.action, handled.value.value, regex)
    ensures forall b :: b in entities.Values && (handled.None? || b != entities[handled.value.entityId]) ==>
      b.customName == old(b.customName)
  {
    handled := Route(isServer, data, entities.Keys);
    if handled.Some? {
      var b := entities[handled.value.entityId];
      b.ApplyAction(handled.value.action, handled.value.value, regex);
    }
  }

  /** A request a client sends reaches the server intact when its action and value hold
      no '|' and the block is known there, so the server renames the block exactly as the
      direct path would. */
  lemma ServerReceivesRequest(m: Message, known: set<Int64>)
    requires FIELD_SEPARATOR !in m.action && FIELD_SEPARATOR !in m.value
    requires m.entityId in known
    ensures Route(true, Encode(m), known) == Some(m)
  {
    ParseEncode(m);
  }

  /** The formatted counter holds only digits and a minus sign. */
  lemma FieldSeparatorNotInNumber(n: Int32, format: string)
    ensures FIELD_SEPARATOR !in FormatNumber(n, format)
  {
    var w := DigitWidth(format);
    if n >= 0 {
      FormatDNonNegative(n, w);
    } else {
      FormatDNegative(n, w);
      FormatDNonNegative(-(n as int), w);
      assert FormatNumber(n, format) == [FormatNumber(n, format)[0]] + FormatD(-(n as int), w);
    }
  }

  /** A numbering request sent over the network is parsed back unchanged when the
      separator holds no '|'. */
  lemma {:induction false} NumberingRequestTravels(entityId: Int64, n: Int32, format: string,
                                                   separator: string, isPrefix: bool, known: set<Int64>)
    requires FIELD_SEPARATOR !in separator && entityId in known
    ensures var req := NumberingRequest(n, format, separator, isPrefix);
      Route(true, Encode(Message(entityId, req.0, req.1)), known) == Some(Message(entityId, req.0, req.1))
  {
    var req := NumberingRequest(n, format, separator, isPrefix);
    FieldSeparatorNotInNumber(n, format);
    ServerReceivesRequest(Message(entityId, req.0, req.1), known);
  }

  /** A REGEX request sent over the network is parsed back unchanged when neither the
      pattern nor the replacement holds a '|'. */
  lemma {:induction false} RegexRequestTravels(entityId: Int64, find: string, replacement: string,
                                               known: set<Int64>)
    requires FIELD_SEPARATOR !in find && FIELD_SEPARATOR !in replacement && entityId in known
    ensures var m := Message(entityId, "REGEX", RegexRequestValue(find, replacement));
      Route(true, Encode(m), known) == Some(m)
  {
    ServerReceivesRequest(Message(entityId, "REGEX", RegexRequestValue(find, replacement)), known);
  }

  /** On the wire a REGEX request keeps only the part of its value before the first '|'. */
  lemma RegexRequestCut(entityId: Int64, find: string, replacement: string, known: set<Int64>)
    requires entityId in known
    ensures var m := Message(entityId, "REGEX", RegexRequestValue(find, replacement));
      Route(true, Encode(m), known) == Some(m.(value := UpTo(m.value, FIELD_SEPARATOR)))
  {
    ParseEncodeTruncates(Message(entityId, "REGEX", RegexRequestValue(find, replacement)));
  }

  /** A pattern with '|' (an alternation) reaches the server cut before its '#', so the
      server leaves the name alone, while the direct path hands the whole pattern to the
      regex engine. */
  lemma {:induction false} RegexAlternationIgnored(name: string, displayName: string, thrust: Option<Direction>,
                                                   entityId: Int64, find: string, replacement: string,
                                                   known: set<Int64>, regex: RegexReplace)
    requires entityId in known
    requires FIELD_SEPARATOR in find && REGEX_SEPARATOR !in find
    ensures var h := Route(true, Encode(Message(entityId, "REGEX", RegexRequestValue(find, replacement))), known);
      h.Some? && Renamed(name, displayName, thrust, h.value.action, h.value.value, regex) == name
    ensures REGEX_SEPARATOR !in replacement ==>
      Renamed(name, displayName, thrust, "REGEX", RegexRequestValue(find, replacement), regex)
        == regex(name, find, replacement).GetOr(name)
  {
    var value := RegexRequestValue(find, replacement);
    var u := UpTo(find, FIELD_SEPARATOR);
    assert UpTo(value, FIELD_SEPARATOR) == u by {
      assert value == find + ([REGEX_SEPARATOR] + replacement);
      UpToStops(find, [REGEX_SEPARATOR] + replacement, FIELD_SEPARATOR);
    }
    assert Renamed(name, displayName, thrust, "REGEX", u, regex) == name by {
      assert forall i :: 0 <= i < |u| ==> u[i] == find[i];
      assert REGEX_SEPARATOR !in u;
    }
    RegexRequestCut(entityId, find, replacement, known);
    RegexRequestGuard(name, displayName, thrust, find, replacement, regex);
  }

  /** A replacement with '|' reaches the server cut at its '|', so the server renames with
      that shorter replacement, while the direct path uses the whole one. */
  lemma {:induction false} RegexReplacementCut(name: string, displayName: string, thrust: Option<Direction>,
                                               entityId: Int64, find: string, replacement: string,
                                               known: set<Int64>, regex: RegexReplace)
    requires entityId in known
    requires FIELD_SEPARATOR !in find && REGEX_SEPARATOR !in find && REGEX_SEPARATOR !in replacement
    ensures var h := Route(true, Encode(Message(entityId, "REGEX", RegexRequestValue(find, replacement))), known);
      && h.Some?
      && Renamed(name, displayName, thrust, h.value.action, h.value.value, regex)
         == regex(name, find, UpTo(replacement, FIELD_SEPARATOR)).GetOr(name)
    ensures Renamed(name, displayName, thrust, "REGEX", RegexRequestValue(find, replacement), regex)
         == regex(name, find, replacement).GetOr(name)
  {
    var value := RegexRequestValue(find, replacement);
    var cut := UpTo(replacement, FIELD_SEPARATOR);
    assert UpTo(value, FIELD_SEPARATOR) == RegexRequestValue(find, cut) by {
      assert value == (find + [REGEX_SEPARATOR]) + replacement;
      UpToAfterPlain(find + [REGEX_SEPARATOR], replacement, FIELD_SEPARATOR);
    }
    assert REGEX_SEPARATOR !in cut by {
      assert forall i :: 0 <= i < |cut| ==> cut[i] == replacement[i];
    }
    RegexRequestCut(entityId, find, replacement, known);
    RegexRequestGuard(name, displayName, thrust, find, cut, regex);
    RegexRequestGuard(name, displayName, thrust, find, replacement, regex);
  }

  /** ProcessNumbering for a block: the counter step, then the NUMPREFIX or NUM request
      through SendNetworkRequest. On the server the formatted number and the separator
      end up in front of or behind the old name. */
  method ProcessNumbering(counters: Counters, block: Block, format: Option<string>,
                          separator: Option<string>, isPrefix: bool, isServer: bool,
                          regex: RegexReplace)
    returns (outgoing: Option<string>, ghost current: Int32)
    modifies counters, block
    ensures counters.groupByType == old(counters.groupByType)
    ensures counters.autoContinue == old(counters.autoContinue)
    ensures current == old(counters.NextValue(block.gridId, block.displayName, format.GetOr(DEFAULT_FORMAT)))
    ensures counters.groupByType ==>
      && counters.typeCounters == old(counters.typeCounters)[block.displayName := Inc32(current)]
      && counters.gridCounters == old(counters.gridCounters)
    ensures !counters.groupByType ==>
      && counters.gridCounters == old(counters.gridCounters)[block.gridId := Inc32(current)]
      && counters.typeCounters == old(counters.typeCounters)
    ensures var number := FormatNumber(current, format.GetOr(DEFAULT_FORMAT));
      var sep := separator.GetOr(DEFAULT_SEPARATOR);
      var req := NumberingRequest(current, format.GetOr(DEFAULT_FORMAT), sep, isPrefix);
      && (isServer ==>
            && outgoing == None
            && block.customName == if isPrefix then number + sep + old(block.customName)
                                   else old(block.customName) + sep + number)
      && (!isServer ==>
            && outgoing == Some(Encode(Message(block.entityId, req.0, req.1)))
            && block.customName == old(block.customName))
  {
    var action, value;
    action, value, current := counters.Number(block.gridId, block.displayName, format, separator, isPrefix);
    ghost var stepped := counters.typeCounters;
    ghost var steppedGrid := counters.gridCounters;
    outgoing := SendNetworkRequest(isServer, block, action, value, regex);
    assert counters.typeCounters == stepped && counters.gridCounters == steppedGrid;
  }
}
