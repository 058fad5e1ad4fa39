/** A streaming JSON writer in the manner of Jackson's JsonGenerator: every
    write call appends tokens to the output, nothing is ever taken back. */
module JsonGenerator {
  import opened Wrappers

  datatype Token =
    | StartObject
    | EndObject
    | StartArray
    | EndArray
    | FieldName(name: string)
    | StringValue(text: string)
    | NumberValue(number: real)

  class Generator {
    /** Everything written so far, in order. */
    var tokens: seq<Token>

    constructor ()
      ensures tokens == []
    {
      tokens := [];
    }

    method WriteStartObject()
      modifies this
      ensures tokens == old(tokens) + [StartObject]
    {
      tokens := tokens + [StartObject];
    }

    method WriteEndObject()
      modifies this
      ensures tokens == old(tokens) + [EndObject]
    {
      tokens := tokens + [EndObject];
    }

    method WriteStartArray()
      modifies this
      ensures tokens == old(tokens) + [StartArray]
    {
      tokens := tokens + [StartArray];
    }

    method WriteEndArray()
      modifies this
      ensures tokens == old(tokens) + [EndArray]
    {
      tokens := tokens + [EndArray];
    }

    method WriteNumber(v: real)
      modifies this
      ensures tokens == old(tokens) + [NumberValue(v)]
    {
      tokens := tokens + [NumberValue(v)];
    }

    /** `writeStringField(name, value)` is a field name followed by a string. */
    method WriteStringField(name: string, value: string)
      modifies this
      ensures tokens == old(tokens) + [FieldName(name), StringValue(value)]
    {
      tokens := tokens + [FieldName(name), StringValue(value)];
    }

    /** `writeArrayFieldStart(name)` is a field name followed by the start of an array. */
    method WriteArrayFieldStart(name: string)
      modifies this
      ensures tokens == old(tokens) + [FieldName(name), StartArray]
    {
      tokens := tokens + [FieldName(name), StartArray];
    }
  }

  /** An open container, as a JSON writer's context stack records it. */
  datatype Frame = InObject | InArray

  /** The effect of one token on the stack of open containers; None when an
      end token does not close the innermost open container. */
  function Step(t: Token, stack: seq<Frame>): Option<seq<Frame>>
  {
    match t
    case StartObject => Some(stack + [InObject])
    case StartArray => Some(stack + [InArray])
    case EndObject =>
      if |stack| > 0 && stack[|stack| - 1] == InObject then Some(stack[..|stack| - 1]) else None
    case EndArray =>
      if |stack| > 0 && stack[|stack| - 1] == InArray then Some(stack[..|stack| - 1]) else None
    case _ => Some(stack)
  }

  /** Runs a token stream against a stack of open containers. */
  function Nest(ts: seq<Token>, stack: seq<Frame>): Option<seq<Frame>>
  {
    if ts == [] then Some(stack)
    else match Step(ts[0], stack)
      case None => None
      case Some(s) => Nest(ts[1..], s)
  }

  /** Every end token closes the container opened most recently, and nothing is
      left open at the end. */
  predicate Balanced(ts: seq<Token>)
  {
    Nest(ts, []) == Some([])
  }

  /** Running two streams one after the other is running the first and then
      the second from wherever the first left the stack. */
  lemma {:induction false} NestAppend(a: seq<Token>, b: seq<Token>, stack: seq<Frame>)
    ensures Nest(a + b, stack) == match Nest(a, stack) case None => None case Some(s) => Nest(b, s)
  {
    if a == [] {
      assert a + b == b;
    } else {
      assert (a + b)[0] == a[0];
      assert (a + b)[1..] == a[1..] + b;
      match Step(a[0], stack)
      case None =>
      case Some(s) => NestAppend(a[1..], b, s);
    }
  }

  /** A stream that leaves the stack as it found it, wherever it starts. */
  ghost predicate Neutral(ts: seq<Token>)
  {
    forall stack: seq<Frame> {:trigger Nest(ts, stack)} :: Nest(ts, stack) == Some(stack)
  }

  /** Neutral streams compose. */
  lemma NeutralAppend(a: seq<Token>, b: seq<Token>)
    requires Neutral(a) && Neutral(b)
    ensures Neutral(a + b)
  {
    forall stack: seq<Frame> ensures Nest(a + b, stack) == Some(stack) {
      NestAppend(a, b, stack);
      assert Nest(a, stack) == Some(stack);
    }
  }

  /** Wrapping a neutral stream in a start and its matching end is neutral. */
  lemma NeutralWrap(open: Token, body: seq<Token>, close: Token)
    requires (open, close) == (StartObject, EndObject) || (open, close) == (StartArray, EndArray)
    requires Neutral(body)
    ensures Neutral([open] + body + [close])
  {
    forall stack: seq<Frame> ensures Nest([open] + body + [close], stack) == Some(stack) {
      var f := if open == StartObject then InObject else InArray;
      var inner := stack + [f];
      assert Step(open, stack) == Some(inner);
      assert Nest([open], stack) == Nest([], inner);
      NestAppend([open], body, stack);
      assert Nest(body, inner) == Some(inner);
      NestAppend([open] + body, [close], stack);
      assert inner[..|inner| - 1] == stack;
      assert Nest([close], inner) == Nest([], stack);
    }
  }
}
