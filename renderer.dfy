/**
 * The greeting renderer: the markup `render` writes into the web part's
 * element, modelled as a function returning that string.
 *
 * The template is a sequence of pieces: developer-written text (`Lit`) and
 * interpolation points (`Hole`), each naming the resolved value that goes
 * there. The template depends only on the two display flags; `Emit` fills
 * every hole with the ESCAPED value, which is how the source treats each
 * of its `${escape(...)}` interpolations.
 */
module Renderer {

  import opened Escaping
  import opened Text
  import Resolver

  /** The values the template interpolates. */
  datatype Field =
    | Background | WelcomeUserTextColor | UserName
    | CustomMessageColor | CustomMessage
    | ButtonUrl | ButtonColor | ButtonTextColor | ButtonText

  datatype Piece = Lit(text: string) | Hole(field: Field)

  /** The unescaped value a field stands for in one render pass. */
  function Value(m: Resolver.Model, userName: string, f: Field): string {
    match f
    case Background => Resolver.BackgroundStyle(m)
    case WelcomeUserTextColor => m.welcomeUserTextColor
    case UserName => userName
    case CustomMessageColor => m.customMessageColor
    case CustomMessage => m.customMessage
    case ButtonUrl => m.buttonUrl
    case ButtonColor => m.buttonColor
    case ButtonTextColor => m.buttonTextColor
    case ButtonText => m.buttonText
  }

  /** The container's opening tag and the start of the greeting line. */
  const Opening: seq<Piece> := [
    Lit("\n        <div class=\"welcomeUser\" style=\"display: flex; justify-content: space-between; align-items: center; background: "),
    Hole(Background),
    Lit("; padding: 10px;\">\n          <div style=\"flex: 1; margin-left: 20px; white-space: nowrap; font-size: 24px; font-weight: bold; color: "),
    Hole(WelcomeUserTextColor),
    Lit(";\">\n            ")]

  /** The greeting itself. */
  const Salutation: seq<Piece> := [Lit("Welcome, "), Hole(UserName), Lit("!")]

  /** The end of the greeting line, up to the message slot. */
  const GreetingEnd: seq<Piece> := [Lit("\n          </div>\n          ")]

  /** The custom-message span. */
  const Message: seq<Piece> := [
    Lit("<span style=\"flex-grow: 1; text-align: center; font-size: 24px; font-weight: bold; margin: 0 20px; color: "),
    Hole(CustomMessageColor),
    Lit(";\">"),
    Hole(CustomMessage),
    Lit("</span>")]

  /** The text between the message slot and the button slot. */
  const Separator: seq<Piece> := [Lit("\n          ")]

  /** The call-to-action button inside a link that opens in a new browsing context. */
  const Button: seq<Piece> := [
    Lit("\n            <div style=\"margin-right: 20px;\">\n              <a href=\""),
    Hole(ButtonUrl),
    Lit("\" target=\"_blank\" rel=\"noopener noreferrer\">\n                <button class=\"callToActionBtn\" style=\"padding: 10px 20px; background-color: "),
    Hole(ButtonColor),
    Lit("; color: "),
    Hole(ButtonTextColor),
    Lit("; border: none; border-radius: 5px; cursor: pointer;\">\n                  "),
    Hole(ButtonText),
    Lit("\n                </button>\n              </a>\n            </div>")]

  /** The container's closing tag. */
  const Closing: seq<Piece> := [Lit("\n        </div>")]

  /** The whole template for the given display flags. */
  function Template(showCustomMessage: bool, showButton: bool): seq<Piece> {
    Opening + Salutation + GreetingEnd + (if showCustomMessage then Message else []) + Separator
    + (if showButton then Button else []) + Closing
  }

  /** The text of a template with every hole filled by its escaped value. */
  function Emit(t: seq<Piece>, m: Resolver.Model, userName: string): string {
    if t == [] then []
    else
      (match t[0]
       case Lit(s) => s
       case Hole(f) => Escape(Value(m, userName, f)))
      + Emit(t[1..], m, userName)
  }

  /** The developer-written text of a template alone, holes left empty. */
  function Skeleton(t: seq<Piece>): string {
    if t == [] then []
    else (if t[0].Lit? then t[0].text else []) + Skeleton(t[1..])
  }

  /** The fields a template interpolates, in the order they appear. */
  function Fields(t: seq<Piece>): seq<Field> {
    if t == [] then []
    else (if t[0].Hole? then [t[0].field] else []) + Fields(t[1..])
  }

  /**
   * The markup `render` assigns to the web part's element. Its markup
   * characters are exactly those of the fixed template text for the two
   * flags, and it always carries the escaped greeting.
   */
  function Render(m: Resolver.Model, userName: string): (html: string)
    ensures forall c :: IsMarkup(c) ==> Count(c, html) == Count(c, Skeleton(Template(m.showCustomMessage, m.showButton)))
    ensures Contains(html, "Welcome, " + Escape(userName) + "!")
  {
    MarkupFromSkeleton(Template(m.showCustomMessage, m.showButton), m, userName);
    GreetingShown(m, userName);
    Emit(Template(m.showCustomMessage, m.showButton), m, userName)
  }

  lemma {:induction false} EmitAppend(a: seq<Piece>, b: seq<Piece>, m: Resolver.Model, userName: string)
    ensures Emit(a + b, m, userName) == Emit(a, m, userName) + Emit(b, m, userName)
  {
    if a == [] {
      assert a + b == b;
    } else {
      assert (a + b)[0] == a[0] && (a + b)[1..] == a[1..] + b;
      EmitAppend(a[1..], b, m, userName);
    }
  }

  lemma {:induction false} FieldsAppend(a: seq<Piece>, b: seq<Piece>)
    ensures Fields(a + b) == Fields(a) + Fields(b)
  {
    if a == [] {
      assert a + b == b;
    } else {
      assert (a + b)[0] == a[0] && (a + b)[1..] == a[1..] + b;
      FieldsAppend(a[1..], b);
    }
  }

  /**
   * Every markup character of the emitted text (`<`, `>`, `"`, `'`) comes
   * from the developer-written text: the interpolated values, whatever they
   * hold, add none.
   */
  lemma {:induction false} MarkupFromSkeleton(t: seq<Piece>, m: Resolver.Model, userName: string)
    ensures forall c :: IsMarkup(c) ==> Count(c, Emit(t, m, userName)) == Count(c, Skeleton(t))
  {
    if t != [] {
      MarkupFromSkeleton(t[1..], m, userName);
      var head := match t[0] case Lit(s) => s case Hole(f) => Escape(Value(m, userName, f));
      forall c | IsMarkup(c)
        ensures Count(c, Emit(t, m, userName)) == Count(c, Skeleton(t))
      {
        CountAppend(c, head, Emit(t[1..], m, userName));
        CountAppend(c, if t[0].Lit? then t[0].text else [], Skeleton(t[1..]));
      }
    }
  }

  /**
   * No property value and no user name can add or remove a tag or an
   * attribute delimiter: two renders with the same display flags contain
   * exactly the same number of each markup character.
   */
  lemma RenderMarkupFixed(m: Resolver.Model, userName: string, m': Resolver.Model, userName': string, c: char)
    requires IsMarkup(c)
    requires m.showCustomMessage == m'.showCustomMessage && m.showButton == m'.showButton
    ensures Count(c, Render(m, userName)) == Count(c, Render(m', userName'))
  {
  }

  lemma GreetingFields()
    ensures Fields(Opening + Salutation + GreetingEnd) == [Background, WelcomeUserTextColor, UserName]
  {
    assert Fields(Opening[5..]) == [];
    assert Fields(Opening[4..]) == [];
    assert Fields(Opening[3..]) == [WelcomeUserTextColor];
    assert Fields(Opening[2..]) == [WelcomeUserTextColor];
    assert Fields(Opening[1..]) == [Background, WelcomeUserTextColor];
    assert Fields(Salutation[2..]) == [];
    assert Fields(Salutation[1..]) == [UserName];
    assert Fields(GreetingEnd) == [];
    FieldsAppend(Opening, Salutation);
    FieldsAppend(Opening + Salutation, GreetingEnd);
  }

  lemma MessageFields()
    ensures Fields(Message) == [CustomMessageColor, CustomMessage]
  {
  }

  lemma ButtonFields()
    ensures Fields(Button) == [ButtonUrl, ButtonColor, ButtonTextColor, ButtonText]
  {
  }

  /**
   * The regions appear in a fixed order: the greeting (background, text
   * colour, name) always; then the message, only when it is shown; then the
   * button, only when it is shown.
   */
  lemma RegionOrder(showCustomMessage: bool, showButton: bool)
    ensures Fields(Template(showCustomMessage, showButton))
         == [Background, WelcomeUserTextColor, UserName]
          + (if showCustomMessage then [CustomMessageColor, CustomMessage] else [])
          + (if showButton then [ButtonUrl, ButtonColor, ButtonTextColor, ButtonText] else [])
  {
    var msg := if showCustomMessage then Message else [];
    var btn := if showButton then Button else [];
    var head := [Background, WelcomeUserTextColor, UserName];
    var msgFields := if showCustomMessage then [CustomMessageColor, CustomMessage] else [];
    var btnFields := if showButton then [ButtonUrl, ButtonColor, ButtonTextColor, ButtonText] else [];
    GreetingFields();
    MessageFields();
    ButtonFields();
    assert Fields(msg) == msgFields;
    assert Fields(btn) == btnFields;
    assert Fields(Separator) == [] && Fields(Closing) == [];
    var greeting := Opening + Salutation + GreetingEnd;
    var a := greeting + msg;
    FieldsAppend(greeting, msg);
    assert Fields(a) == head + msgFields;
    var b := a + Separator;
    FieldsAppend(a, Separator);
    assert Fields(b) == head + msgFields;
    var c := b + btn;
    FieldsAppend(b, btn);
    assert Fields(c) == head + msgFields + btnFields;
    FieldsAppend(c, Closing);
    assert Template(showCustomMessage, showButton) == c + Closing;
  }

  lemma SalutationText(m: Resolver.Model, userName: string)
    ensures Emit(Salutation, m, userName) == "Welcome, " + Escape(userName) + "!"
  {
    assert Emit(Salutation[2..], m, userName) == "!";
    assert Emit(Salutation[1..], m, userName) == Escape(userName) + "!";
  }

  /** The greeting `Welcome, <escaped name>!` is always part of the markup. */
  lemma GreetingShown(m: Resolver.Model, userName: string)
    ensures Contains(Emit(Template(m.showCustomMessage, m.showButton), m, userName), "Welcome, " + Escape(userName) + "!")
  {
    var rest := GreetingEnd + (if m.showCustomMessage then Message else []) + Separator
      + (if m.showButton then Button else []) + Closing;
    assert Template(m.showCustomMessage, m.showButton) == Opening + Salutation + rest;
    EmitAppend(Opening + Salutation, rest, m, userName);
    EmitAppend(Opening, Salutation, m, userName);
    SalutationText(m, userName);
    ContainsMiddle(Emit(Opening, m, userName), "Welcome, " + Escape(userName) + "!", Emit(rest, m, userName));
  }

  /** The markup split along the template's regions. */
  lemma RenderRegions(m: Resolver.Model, userName: string)
    ensures Render(m, userName)
         == Emit(Opening, m, userName) + Emit(Salutation, m, userName) + Emit(GreetingEnd, m, userName)
          + Emit(if m.showCustomMessage then Message else [], m, userName) + Emit(Separator, m, userName)
          + Emit(if m.showButton then Button else [], m, userName) + Emit(Closing, m, userName)
  {
    var msg := if m.showCustomMessage then Message else [];
    var btn := if m.showButton then Button else [];
    var a := Opening + Salutation;
    var b := a + GreetingEnd;
    var c := b + msg;
    var d := c + Separator;
    var e := d + btn;
    assert Template(m.showCustomMessage, m.showButton) == e + Closing;
    EmitAppend(e, Closing, m, userName);
    EmitAppend(d, btn, m, userName);
    EmitAppend(c, Separator, m, userName);
    EmitAppend(b, msg, m, userName);
    EmitAppend(a, GreetingEnd, m, userName);
    EmitAppend(Opening, Salutation, m, userName);
  }

  lemma MessageText(m: Resolver.Model, userName: string)
    ensures Emit(Message, m, userName)
         == Emit(Message[..3], m, userName) + Escape(m.customMessage) + "</span>"
  {
    assert Message == Message[..3] + [Hole(CustomMessage)] + [Lit("</span>")];
    EmitAppend(Message[..3] + [Hole(CustomMessage)], [Lit("</span>")], m, userName);
    EmitAppend(Message[..3], [Hole(CustomMessage)], m, userName);
  }

  lemma ButtonLabel(m: Resolver.Model, userName: string)
    ensures Emit(Button, m, userName)
         == Emit(Button[..7], m, userName) + Escape(m.buttonText) + Emit(Button[8..], m, userName)
  {
    assert Button == Button[..7] + [Hole(ButtonText)] + Button[8..];
    EmitAppend(Button[..7] + [Hole(ButtonText)], Button[8..], m, userName);
    EmitAppend(Button[..7], [Hole(ButtonText)], m, userName);
  }

  /** The greeting comes before the custom message in the markup when the message is shown. */
  lemma MessageAfterGreeting(m: Resolver.Model, userName: string)
    requires m.showCustomMessage
    ensures Precedes(Render(m, userName), "Welcome, " + Escape(userName) + "!", Escape(m.customMessage))
  {
    RenderRegions(m, userName);
    SalutationText(m, userName);
    MessageText(m, userName);
    var E := (t: seq<Piece>) => Emit(t, m, userName);
    SecondBeforeFourth(Render(m, userName), E(Opening), E(Salutation), E(GreetingEnd), E(Message), E(Separator),
                       E(if m.showButton then Button else []), E(Closing),
                       E(Message[..3]), Escape(m.customMessage), "</span>");
  }

  /** The greeting comes before the button's label in the markup when the button is shown. */
  lemma ButtonAfterGreeting(m: Resolver.Model, userName: string)
    requires m.showButton
    ensures Precedes(Render(m, userName), "Welcome, " + Escape(userName) + "!", Escape(m.buttonText))
  {
    RenderRegions(m, userName);
    SalutationText(m, userName);
    ButtonLabel(m, userName);
    var E := (t: seq<Piece>) => Emit(t, m, userName);
    SecondBeforeSixth(Render(m, userName), E(Opening), E(Salutation), E(GreetingEnd),
                      E(if m.showCustomMessage then Message else []), E(Separator), E(Button), E(Closing),
                      E(Button[..7]), Escape(m.buttonText), E(Button[8..]));
  }

  /** With both shown, the custom message comes before the button's label in the markup. */
  lemma ButtonAfterMessage(m: Resolver.Model, userName: string)
    requires m.showCustomMessage && m.showButton
    ensures Precedes(Render(m, userName), Escape(m.customMessage), Escape(m.buttonText))
  {
    RenderRegions(m, userName);
    MessageText(m, userName);
    ButtonLabel(m, userName);
    var E := (t: seq<Piece>) => Emit(t, m, userName);
    FourthBeforeSixth(Render(m, userName), E(Opening), E(Salutation), E(GreetingEnd), E(Message), E(Separator),
                      E(Button), E(Closing),
                      E(Message[..3]), Escape(m.customMessage), "</span>",
                      E(Button[..7]), Escape(m.buttonText), E(Button[8..]));
  }

  // Markup made of seven consecutive regions: text found in an earlier region precedes text in a later one.

  lemma SecondBeforeFourth(s: string, p1: string, p2: string, p3: string, p4: string, p5: string, p6: string,
                           p7: string, v1: string, v: string, v2: string)
    requires s == p1 + p2 + p3 + p4 + p5 + p6 + p7
    requires p4 == v1 + v + v2
    ensures Precedes(s, p2, v)
  {
    assert s == p1 + p2 + (p3 + v1) + v + (v2 + p5 + p6 + p7);
    PrecedesMiddle(p1, p2, p3 + v1, v, v2 + p5 + p6 + p7);
  }

  lemma SecondBeforeSixth(s: string, p1: string, p2: string, p3: string, p4: string, p5: string, p6: string,
                          p7: string, v1: string, v: string, v2: string)
    requires s == p1 + p2 + p3 + p4 + p5 + p6 + p7
    requires p6 == v1 + v + v2
    ensures Precedes(s, p2, v)
  {
    assert s == p1 + p2 + (p3 + p4 + p5 + v1) + v + (v2 + p7);
    PrecedesMiddle(p1, p2, p3 + p4 + p5 + v1, v, v2 + p7);
  }

  lemma FourthBeforeSixth(s: string, p1: string, p2: string, p3: string, p4: string, p5: string, p6: string,
                          p7: string, u1: string, u: string, u2: string, v1: string, v: string, v2: string)
    requires s == p1 + p2 + p3 + p4 + p5 + p6 + p7
    requires p4 == u1 + u + u2
    requires p6 == v1 + v + v2
    ensures Precedes(s, u, v)
  {
    assert s == (p1 + p2 + p3 + u1) + u + (u2 + p5 + v1) + v + (v2 + p7);
    PrecedesMiddle(p1 + p2 + p3 + u1, u, u2 + p5 + v1, v, v2 + p7);
  }

}
