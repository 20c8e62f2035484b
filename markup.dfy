/**
 * The markup the renderer and the page wrapper emit, viewed as a stream of
 * tokens: an opening tag (its element name and the text written for it, such
 * as `<ul role="group">`), a closing tag, or raw text.
 * The emitted string is the concatenation of the tokens' texts, and a stream
 * is well nested when every closing tag closes the innermost open element.
 */
module Markup {

  datatype Token =
    | Open(tag: string, text: string)
    | Close(tag: string)
    | Chars(text: string)

  datatype Option<T> = None | Some(value: T)

  function TokenText(t: Token): string {
    match t
    case Open(_, text) => text
    case Close(tag) => "</" + tag + ">"
    case Chars(text) => text
  }

  /** The string a token stream stands for. */
  function Html(ts: seq<Token>): string {
    if ts == [] then "" else TokenText(ts[0]) + Html(ts[1..])
  }

  lemma AppendAssoc<T>(a: seq<T>, b: seq<T>, c: seq<T>)
    ensures a + (b + c) == a + b + c
  {
  }

  lemma {:induction false} HtmlAppend(a: seq<Token>, b: seq<Token>)
    ensures Html(a + b) == Html(a) + Html(b)
  {
    if a == [] {
      assert a + b == b;
    } else {
      assert (a + b)[1..] == a[1..] + b;
      HtmlAppend(a[1..], b);
    }
  }

  /**
   * Runs the stream against a stack of open tags (innermost last): an opening
   * tag is pushed, a closing tag must match the top and pops it.
   */
  function Nest(stack: seq<string>, ts: seq<Token>): Option<seq<string>>
    decreases ts
  {
    if ts == [] then Some(stack)
    else match ts[0]
      case Open(tag, _) => Nest(stack + [tag], ts[1..])
      case Close(tag) =>
        if stack != [] && stack[|stack| - 1] == tag then Nest(stack[..|stack| - 1], ts[1..]) else None
      case Chars(_) => Nest(stack, ts[1..])
  }

  /** Every element that is opened is closed, in last-opened-first-closed order. */
  predicate WellNested(ts: seq<Token>) {
    Nest([], ts) == Some([])
  }

  /** A stream that leaves any stack as it found it. */
  ghost predicate Balanced(ts: seq<Token>) {
    forall stack :: Nest(stack, ts) == Some(stack)
  }

  lemma {:induction false} NestAppend(stack: seq<string>, a: seq<Token>, b: seq<Token>)
    ensures Nest(stack, a + b) == match Nest(stack, a) case None => None case Some(s) => Nest(s, b)
    decreases a
  {
    if a == [] {
      assert a + b == b;
    } else {
      assert (a + b)[0] == a[0];
      assert (a + b)[1..] == a[1..] + b;
      match a[0]
      case Open(tag, _) => NestAppend(stack + [tag], a[1..], b);
      case Close(tag) =>
        if stack != [] && stack[|stack| - 1] == tag {
          NestAppend(stack[..|stack| - 1], a[1..], b);
        }
      case Chars(_) => NestAppend(stack, a[1..], b);
    }
  }

  /** Balanced streams compose. */
  lemma BalancedAppend(a: seq<Token>, b: seq<Token>)
    requires Balanced(a) && Balanced(b)
    ensures Balanced(a + b)
  {
    forall stack ensures Nest(stack, a + b) == Some(stack) {
      NestAppend(stack, a, b);
    }
  }

  /** An element `<tag …>` + inner + `</tag>` around a balanced inner stream is balanced. */
  lemma BalancedElement(tag: string, text: string, inner: seq<Token>)
    requires Balanced(inner)
    ensures Balanced([Open(tag, text)] + inner + [Close(tag)])
  {
    forall stack ensures Nest(stack, [Open(tag, text)] + inner + [Close(tag)]) == Some(stack) {
      var s := stack + [tag];
      NestAppend(stack, [Open(tag, text)], inner + [Close(tag)]);
      assert Nest(stack, [Open(tag, text)]) == Nest(s, []);
      NestAppend(s, inner, [Close(tag)]);
      assert s[..|s| - 1] == stack;
      assert Nest(s, [Close(tag)]) == Nest(stack, []);
      assert [Open(tag, text)] + inner + [Close(tag)] == [Open(tag, text)] + (inner + [Close(tag)]);
    }
  }

  lemma BalancedChars(text: string)
    ensures Balanced([Chars(text)])
  {
    forall stack ensures Nest(stack, [Chars(text)]) == Some(stack) {
      assert [Chars(text)][1..] == [];
    }
  }

  /** A balanced stream is well nested on its own. */
  lemma BalancedIsWellNested(ts: seq<Token>)
    requires Balanced(ts)
    ensures WellNested(ts)
  {
    assert Nest([], ts) == Some([]);
  }
}
