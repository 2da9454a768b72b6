/** Rejecting repeated object names anywhere in a JSON value, from its token stream.

    Models internal/enforcement/json.go over the tokens encoding/json's decoder produces; what makes text
    into tokens is not modelled. */
module StrictJson {
  import opened Sequences
  import opened Wrappers

  datatype Token = OpenObject | CloseObject | OpenArray | CloseArray | Text(s: string) | Atom(literal: string)

  /** A JSON value (RFC 8259, section 3), with an object's members in order and possibly repeated. */
  datatype Json = Leaf(token: Token) | Array(items: seq<Json>) | Object(members: seq<Member>)
  datatype Member = Member(name: string, value: Json)

  predicate IsLeaf(t: Token) {
    t.Text? || t.Atom?
  }

  predicate WellFormed(v: Json) {
    match v
    case Leaf(token) => IsLeaf(token)
    case Array(items) => forall i :: 0 <= i < |items| ==> WellFormed(items[i])
    case Object(members) => forall i :: 0 <= i < |members| ==> WellFormed(members[i].value)
  }

  function Tokens(v: Json): (ts: seq<Token>)
    ensures |ts| > 0
    ensures WellFormed(v) ==> !Closes(ts)
    decreases v, 1
  {
    match v
    case Leaf(token) => [token]
    case Array(items) => [OpenArray] + ItemTokens(items) + [CloseArray]
    case Object(members) => [OpenObject] + MemberTokens(members) + [CloseObject]
  }

  function ItemTokens(items: seq<Json>): seq<Token>
    decreases items, 0
  {
    if items == [] then [] else Tokens(items[0]) + ItemTokens(items[1..])
  }

  function MemberTokens(members: seq<Member>): seq<Token>
    decreases members, 0
  {
    if members == [] then [] else [Text(members[0].name)] + Tokens(members[0].value) + MemberTokens(members[1..])
  }

  /** No object anywhere in the value repeats a name. */
  predicate Strict(v: Json) {
    match v
    case Leaf(_) => true
    case Array(items) => forall i :: 0 <= i < |items| ==> Strict(items[i])
    case Object(members) =>
      && (forall i, j :: 0 <= i < j < |members| ==> members[i].name != members[j].name)
      && (forall i :: 0 <= i < |members| ==> Strict(members[i].value))
  }

  // ---------------------------------------------------------------- the walk, as a function of the tokens

  predicate Closes(ts: seq<Token>) {
    |ts| > 0 && (ts[0] == CloseObject || ts[0] == CloseArray)
  }

  /** More is true while another element may follow. */
  predicate HasMore(ts: seq<Token>) {
    |ts| > 0 && !Closes(ts)
  }

  function Expect(ts: seq<Token>, t: Token): (r: Option<seq<Token>>)
    ensures r.Some? ==> |r.value| < |ts|
  {
    if |ts| > 0 && ts[0] == t then Some(ts[1..]) else None
  }

  /** What is left after one value, or None when the walk rejects it. */
  function Check(ts: seq<Token>): (r: Option<seq<Token>>)
    ensures r.Some? ==> |r.value| < |ts|
    decreases |ts|, 0
  {
    if |ts| == 0 then None
    else
      match ts[0]
      case OpenObject => CheckMembers(ts[1..], {})
      case OpenArray => CheckItems(ts[1..])
      case CloseObject => None
      case CloseArray => None
      case _ => Some(ts[1..])
  }

  function CheckItems(ts: seq<Token>): (r: Option<seq<Token>>)
    ensures r.Some? ==> |r.value| < |ts|
    decreases |ts|, 1
  {
    if !HasMore(ts) then Expect(ts, CloseArray)
    else
      var rest := Check(ts);
      if rest.None? then None else CheckItems(rest.value)
  }

  function CheckMembers(ts: seq<Token>, seen: set<string>): (r: Option<seq<Token>>)
    ensures r.Some? ==> |r.value| < |ts|
    decreases |ts|, 1
  {
    if !HasMore(ts) then Expect(ts, CloseObject)
    else if !ts[0].Text? || ts[0].s in seen then None
    else
      var rest := Check(ts[1..]);
      if rest.None? then None else CheckMembers(rest.value, seen + {ts[0].s})
  }

  // ---------------------------------------------------------------- the decoder walk

  class Decoder {
    const tokens: seq<Token>
    var next: nat

    constructor (tokens: seq<Token>)
      ensures this.tokens == tokens && next == 0
    {
      this.tokens := tokens;
      next := 0;
    }

    ghost predicate Valid()
      reads this`next
    {
      next <= |tokens|
    }

    ghost function Remaining(): seq<Token>
      requires Valid()
      reads this`next
    {
      tokens[next..]
    }

    method NextToken() returns (t: Option<Token>)
      requires Valid()
      modifies this`next
      ensures Valid()
      ensures |old(Remaining())| == 0 ==> t == None && Remaining() == old(Remaining())
      ensures |old(Remaining())| > 0 ==> t == Some(old(Remaining())[0]) && Remaining() == old(Remaining())[1..]
    {
      if next == |tokens| {
        return None;
      }
      t := Some(tokens[next]);
      next := next + 1;
    }

    method More() returns (more: bool)
      requires Valid()
      ensures more == HasMore(Remaining())
    {
      more := next < |tokens| && tokens[next] != CloseObject && tokens[next] != CloseArray;
    }

    method ConsumeDelimiter(expected: Token) returns (ok: bool)
      requires Valid()
      modifies this`next
      ensures Valid()
      ensures ok <==> Expect(old(Remaining()), expected).Some?
      ensures ok ==> Remaining() == Expect(old(Remaining()), expected).value
    {
      var t := NextToken();
      ok := t == Some(expected);
    }

    method CheckJSONValue() returns (ok: bool)
      requires Valid()
      modifies this`next
      ensures Valid()
      ensures ok <==> Check(old(Remaining())).Some?
      ensures ok ==> Remaining() == Check(old(Remaining())).value
      decreases |Remaining()|, 0
    {
      var t := NextToken();
      if t.None? {
        return false;
      }
      match t.value {
        case OpenObject => ok := CheckObject();
        case OpenArray => ok := CheckArray();
        case CloseObject => ok := false;
        case CloseArray => ok := false;
        case _ => ok := true;
      }
    }

    method CheckObject() returns (ok: bool)
      requires Valid()
      modifies this`next
      ensures Valid()
      ensures ok <==> CheckMembers(old(Remaining()), {}).Some?
      ensures ok ==> Remaining() == CheckMembers(old(Remaining()), {}).value
      decreases |Remaining()|, 1
    {
      ghost var start := Remaining();
      var seen: set<string> := {};
      var more := More();
      while more
        invariant Valid() && |Remaining()| <= |start|
        invariant more == HasMore(Remaining())
        invariant CheckMembers(start, {}) == CheckMembers(Remaining(), seen)
        decreases |Remaining()|
      {
        var key := NextToken();
        if key.None? || !key.value.Text? || key.value.s in seen {
          return false;
        }
        seen := seen + {key.value.s};
        var checked := CheckJSONValue();
        if !checked {
          return false;
        }
        more := More();
      }
      ok := ConsumeDelimiter(CloseObject);
    }

    method CheckArray() returns (ok: bool)
      requires Valid()
      modifies this`next
      ensures Valid()
      ensures ok <==> CheckItems(old(Remaining())).Some?
      ensures ok ==> Remaining() == CheckItems(old(Remaining())).value
      decreases |Remaining()|, 1
    {
      ghost var start := Remaining();
      var more := More();
      while more
        invariant Valid() && |Remaining()| <= |start|
        invariant more == HasMore(Remaining())
        invariant CheckItems(start) == CheckItems(Remaining())
        decreases |Remaining()|
      {
        var checked := CheckJSONValue();
        if !checked {
          return false;
        }
        more := More();
      }
      ok := ConsumeDelimiter(CloseArray);
    }
  }

  // ---------------------------------------------------------------- what the walk decides

  predicate StrictItems(items: seq<Json>) {
    forall i :: 0 <= i < |items| ==> Strict(items[i])
  }

  predicate StrictMembers(members: seq<Member>, seen: set<string>) {
    && (forall i, j :: 0 <= i < j < |members| ==> members[i].name != members[j].name)
    && (forall i :: 0 <= i < |members| ==> members[i].name !in seen && Strict(members[i].value))
  }

  /** The walk accepts exactly the values no object of which repeats a name, at any depth, and leaves
      exactly the tokens after the value. */
  lemma {:induction false} CheckDecidesStrict(v: Json, rest: seq<Token>)
    requires WellFormed(v)
    ensures Check(Tokens(v) + rest) == if Strict(v) then Some(rest) else None
    decreases v, 1
  {
    var ts := Tokens(v) + rest;
    match v
    case Leaf(token) =>
      TailOfCons(token, rest);
    case Array(items) =>
      Bracketed(OpenArray, ItemTokens(items), CloseArray, rest);
      CheckDecidesItems(items, rest);
    case Object(members) =>
      Bracketed(OpenObject, MemberTokens(members), CloseObject, rest);
      CheckDecidesMembers(members, {}, rest);
  }

  lemma Bracketed(open: Token, body: seq<Token>, close: Token, rest: seq<Token>)
    ensures var ts := [open] + body + [close] + rest; ts[0] == open && ts[1..] == body + [close] + rest
  {}

  lemma {:induction false} CheckDecidesItems(items: seq<Json>, rest: seq<Token>)
    requires forall i :: 0 <= i < |items| ==> WellFormed(items[i])
    ensures CheckItems(ItemTokens(items) + [CloseArray] + rest) == if StrictItems(items) then Some(rest) else None
    decreases items, 0
  {
    if items == [] {
      EmptyPlus([CloseArray]);
      TailOfCons(CloseArray, rest);
    } else {
      var head, tail := Tokens(items[0]), ItemTokens(items[1..]);
      var after := tail + [CloseArray] + rest;
      assert head + tail + [CloseArray] + rest == head + after;
      CheckDecidesStrict(items[0], after);
      CheckDecidesItems(items[1..], rest);
      assert StrictItems(items) <==> Strict(items[0]) && StrictItems(items[1..]);
    }
  }

  lemma {:induction false} CheckDecidesMembers(members: seq<Member>, seen: set<string>, rest: seq<Token>)
    requires forall i :: 0 <= i < |members| ==> WellFormed(members[i].value)
    ensures CheckMembers(MemberTokens(members) + [CloseObject] + rest, seen) ==
            if StrictMembers(members, seen) then Some(rest) else None
    decreases members, 0
  {
    if members == [] {
      EmptyPlus([CloseObject]);
      TailOfCons(CloseObject, rest);
    } else {
      var m := members[0];
      var head, tail := Tokens(m.value), MemberTokens(members[1..]);
      var after := tail + [CloseObject] + rest;
      assert [Text(m.name)] + head + tail + [CloseObject] + rest == [Text(m.name)] + (head + after);
      TailOfCons(Text(m.name), head + after);
      CheckDecidesStrict(m.value, after);
      CheckDecidesMembers(members[1..], seen + {m.name}, rest);
      StrictMembersNext(members, seen);
    }
  }

  lemma StrictMembersNext(members: seq<Member>, seen: set<string>)
    requires members != []
    ensures StrictMembers(members, seen) <==>
              members[0].name !in seen && Strict(members[0].value) && StrictMembers(members[1..], seen + {members[0].name})
  {
    var tail := members[1..];
    assert forall i :: 0 <= i < |tail| ==> tail[i] == members[i + 1];
    if StrictMembers(tail, seen + {members[0].name}) && members[0].name !in seen && Strict(members[0].value) {
      forall i, j | 0 <= i < j < |members| ensures members[i].name != members[j].name {
        assert members[j] == tail[j - 1];
        if i > 0 { assert members[i] == tail[i - 1]; }
      }
      forall i | 0 <= i < |members| ensures members[i].name !in seen && Strict(members[i].value) {
        if i > 0 { assert members[i] == tail[i - 1]; }
      }
    }
  }

  // ---------------------------------------------------------------- nothing else is accepted

  /** Whatever tokens the walk accepts begin with a value that repeats no name, and what it leaves is what
      follows that value. */
  lemma {:induction false} AcceptedIsStrict(ts: seq<Token>) returns (v: Json)
    requires Check(ts).Some?
    ensures WellFormed(v) && Strict(v) && ts == Tokens(v) + Check(ts).value
    decreases |ts|, 0
  {
    if ts[0] == OpenObject {
      var members := AcceptedMembers(ts[1..], {});
      v := Object(members);
      Rebracketed(ts, MemberTokens(members), CloseObject, Check(ts).value);
    } else if ts[0] == OpenArray {
      var items := AcceptedItems(ts[1..]);
      v := Array(items);
      Rebracketed(ts, ItemTokens(items), CloseArray, Check(ts).value);
    } else {
      v := Leaf(ts[0]);
    }
  }

  lemma Rebracketed(ts: seq<Token>, body: seq<Token>, close: Token, rest: seq<Token>)
    requires |ts| > 0 && ts[1..] == body + [close] + rest
    ensures ts == [ts[0]] + body + [close] + rest
  {
    assert ts == [ts[0]] + ts[1..];
  }

  lemma {:induction false} AcceptedItems(ts: seq<Token>) returns (items: seq<Json>)
    requires CheckItems(ts).Some?
    ensures WellFormed(Array(items)) && Strict(Array(items))
    ensures ts == ItemTokens(items) + [CloseArray] + CheckItems(ts).value
    decreases |ts|, 1
  {
    if !HasMore(ts) {
      items := [];
    } else {
      var first := AcceptedIsStrict(ts);
      var others := AcceptedItems(Check(ts).value);
      items := [first] + others;
      TailOfCons(first, others);
      assert ts == Tokens(first) + (ItemTokens(others) + [CloseArray] + CheckItems(ts).value);
    }
  }

  lemma {:induction false} AcceptedMembers(ts: seq<Token>, seen: set<string>) returns (members: seq<Member>)
    requires CheckMembers(ts, seen).Some?
    ensures WellFormed(Object(members)) && StrictMembers(members, seen)
    ensures ts == MemberTokens(members) + [CloseObject] + CheckMembers(ts, seen).value
    decreases |ts|, 1
  {
    if !HasMore(ts) {
      members := [];
    } else {
      var name := ts[0].s;
      var value := AcceptedIsStrict(ts[1..]);
      var others := AcceptedMembers(Check(ts[1..]).value, seen + {name});
      members := [Member(name, value)] + others;
      TailOfCons(Member(name, value), others);
      StrictMembersNext(members, seen);
      Prefixed(ts, Tokens(value), MemberTokens(others), CheckMembers(ts, seen).value);
    }
  }

  lemma Prefixed(ts: seq<Token>, value: seq<Token>, others: seq<Token>, rest: seq<Token>)
    requires |ts| > 0 && ts[1..] == value + (others + [CloseObject] + rest)
    ensures ts == ([ts[0]] + value + others) + [CloseObject] + rest
  {
    assert ts == [ts[0]] + ts[1..];
  }

  /** v is a value without repeated names, and ts is its tokens and then rest. */
  predicate Begins(ts: seq<Token>, v: Json, rest: seq<Token>) {
    WellFormed(v) && Strict(v) && ts == Tokens(v) + rest
  }

  /** So for any tokens at all: the walk leaves rest exactly when they are a value that repeats no name at
      any depth, followed by rest. */
  lemma CheckAcceptsExactly(ts: seq<Token>, rest: seq<Token>)
    ensures Check(ts) == Some(rest) <==> exists v :: Begins(ts, v, rest)
  {
    if Check(ts) == Some(rest) {
      var v := AcceptedIsStrict(ts);
      assert Begins(ts, v, rest);
    }
    if v :| Begins(ts, v, rest) {
      CheckDecidesStrict(v, rest);
    }
  }
}
