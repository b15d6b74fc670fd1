/**
 * The configuration resolver of the welcome-user web part: the chain of
 * constant bindings at the start of `render`, which turns the property bag
 * the host persists (any field may be missing or empty) into the fully
 * defaulted values the template interpolates.
 *
 * JavaScript's `x || d` on a string property yields `d` exactly when `x` is
 * falsy, that is `undefined`, `null` or the empty string; `None` stands for
 * the first two. Validation failures are never errors: the field's default
 * is substituted silently.
 */
module Resolver {

  import opened Options

  /** The web part's property bag, as stored by the host. */
  datatype Props = Props(
    description: Option<string>,
    showCustomMessage: Option<bool>,
    customMessage: Option<string>,
    buttonText: Option<string>,
    buttonUrl: Option<string>,
    showButton: Option<bool>,
    buttonColor: Option<string>,
    buttonTextColor: Option<string>,
    backgroundType: Option<string>,
    backgroundValue: Option<string>,
    customMessageColor: Option<string>,
    welcomeUserTextColor: Option<string>)

  /** The values one render pass works with, every one of them present. */
  datatype Model = Model(
    customMessage: string,
    customMessageColor: string,
    welcomeUserTextColor: string,
    buttonText: string,
    buttonUrl: string,
    showButton: bool,
    buttonColor: string,
    buttonTextColor: string,
    backgroundType: string,
    backgroundValue: string,
    showCustomMessage: bool)

  const DefaultCustomMessage := "Have a great day!"
  const DefaultCustomMessageColor := "#000000"
  const DefaultWelcomeUserTextColor := "#000000"
  const DefaultButtonText := "Call to Action"
  const DefaultButtonUrl := "#"
  const DefaultButtonColor := "#0078d4"
  const DefaultButtonTextColor := "#FFFFFF"
  const DefaultBackgroundType := "color"
  const DefaultBackgroundValue := "#ffffff"

  /** JavaScript truthiness of a string-valued property. */
  predicate Truthy(o: Option<string>) {
    o.Some? && o.value != ""
  }

  /** A hexadecimal digit in either case. */
  predicate IsHexDigit(c: char) {
    '0' <= c <= '9' || 'A' <= c <= 'F' || 'a' <= c <= 'f'
  }

  /** The character class `[0-9A-F]` as written. */
  predicate InHexClass(c: char) {
    '0' <= c <= '9' || 'A' <= c <= 'F'
  }

  /**
   * Case folding under the flag `i` (without `u`): a character is compared
   * in upper case. Only ASCII letters matter here, because a non-ASCII
   * character is never folded onto an ASCII one, so the others are kept.
   */
  function Canonicalize(c: char): char {
    if 'a' <= c <= 'z' then (c as int - 32) as char else c
  }

  /**
   * `s` matches `/^#[0-9A-F]{6}$/i`: `#`, then six characters whose folded
   * form is in the class, then the end (without the `m` flag, `$` anchors at
   * the very end of the text). The matches are exactly `#` and six hex
   * digits of either case.
   */
  predicate IsHexColor(s: string)
    ensures IsHexColor(s) <==> |s| == 7 && s[0] == '#' && forall i :: 1 <= i < 7 ==> IsHexDigit(s[i])
  {
    |s| == 7 && s[0] == '#' && forall i :: 1 <= i < 7 ==> InHexClass(Canonicalize(s[i]))
  }

  /** `o || fallback` for a string property. */
  function Or(o: Option<string>, fallback: string): string {
    if Truthy(o) then o.value else fallback
  }

  /** `o && /^#[0-9A-F]{6}$/i.test(o) ? o : fallback`. */
  function HexOr(o: Option<string>, fallback: string): string {
    if Truthy(o) && IsHexColor(o.value) then o.value else fallback
  }

  /** The values `render` binds before it builds the markup. */
  function Resolve(p: Props): (m: Model)
    // the two button colours are always well-formed six-digit hex colours
    ensures IsHexColor(m.buttonColor) && IsHexColor(m.buttonTextColor)
    // a valid colour is kept as given (case included), anything else is replaced
    ensures p.buttonColor.Some? && IsHexColor(p.buttonColor.value) ==> m.buttonColor == p.buttonColor.value
    ensures !(p.buttonColor.Some? && IsHexColor(p.buttonColor.value)) ==> m.buttonColor == DefaultButtonColor
    ensures p.buttonTextColor.Some? && IsHexColor(p.buttonTextColor.value) ==> m.buttonTextColor == p.buttonTextColor.value
    ensures !(p.buttonTextColor.Some? && IsHexColor(p.buttonTextColor.value)) ==> m.buttonTextColor == DefaultButtonTextColor
    // text fields: copied when non-empty, the literal default exactly when empty or absent
    ensures Truthy(p.customMessage) ==> m.customMessage == p.customMessage.value
    ensures !Truthy(p.customMessage) ==> m.customMessage == DefaultCustomMessage
    ensures Truthy(p.customMessageColor) ==> m.customMessageColor == p.customMessageColor.value
    ensures !Truthy(p.customMessageColor) ==> m.customMessageColor == DefaultCustomMessageColor
    ensures Truthy(p.welcomeUserTextColor) ==> m.welcomeUserTextColor == p.welcomeUserTextColor.value
    ensures !Truthy(p.welcomeUserTextColor) ==> m.welcomeUserTextColor == DefaultWelcomeUserTextColor
    ensures Truthy(p.buttonText) ==> m.buttonText == p.buttonText.value
    ensures !Truthy(p.buttonText) ==> m.buttonText == DefaultButtonText
    ensures Truthy(p.buttonUrl) ==> m.buttonUrl == p.buttonUrl.value
    ensures !Truthy(p.buttonUrl) ==> m.buttonUrl == DefaultButtonUrl
    ensures Truthy(p.backgroundType) ==> m.backgroundType == p.backgroundType.value
    ensures !Truthy(p.backgroundType) ==> m.backgroundType == DefaultBackgroundType
    ensures Truthy(p.backgroundValue) ==> m.backgroundValue == p.backgroundValue.value
    ensures !Truthy(p.backgroundValue) ==> m.backgroundValue == DefaultBackgroundValue
    // the button is hidden only by an explicit `false`; the message is shown only by a truthy flag
    ensures !m.showButton <==> p.showButton == Some(false)
    ensures m.showCustomMessage <==> p.showCustomMessage == Some(true)
    // no resolved text is ever empty
    ensures m.customMessage != [] && m.customMessageColor != [] && m.welcomeUserTextColor != []
    ensures m.buttonText != [] && m.buttonUrl != [] && m.backgroundType != [] && m.backgroundValue != []
  {
    Model(
      customMessage := Or(p.customMessage, DefaultCustomMessage),
      customMessageColor := Or(p.customMessageColor, DefaultCustomMessageColor),
      welcomeUserTextColor := Or(p.welcomeUserTextColor, DefaultWelcomeUserTextColor),
      buttonText := Or(p.buttonText, DefaultButtonText),
      buttonUrl := Or(p.buttonUrl, DefaultButtonUrl),
      showButton := p.showButton != Some(false),
      buttonColor := HexOr(p.buttonColor, DefaultButtonColor),
      buttonTextColor := HexOr(p.buttonTextColor, DefaultButtonTextColor),
      backgroundType := Or(p.backgroundType, DefaultBackgroundType),
      backgroundValue := Or(p.backgroundValue, DefaultBackgroundValue),
      showCustomMessage := p.showCustomMessage == Some(true))
  }

  /** The CSS `background` value; both branches of the `backgroundType` test give the same string. */
  function BackgroundStyle(m: Model): (style: string)
    ensures style == m.backgroundValue
  {
    if m.backgroundType == "gradient" then m.backgroundValue else m.backgroundValue
  }

  /** The property bag that stores exactly the values of `m`. */
  function Stored(m: Model, description: Option<string>): Props {
    Props(description, Some(m.showCustomMessage), Some(m.customMessage), Some(m.buttonText),
          Some(m.buttonUrl), Some(m.showButton), Some(m.buttonColor), Some(m.buttonTextColor),
          Some(m.backgroundType), Some(m.backgroundValue), Some(m.customMessageColor),
          Some(m.welcomeUserTextColor))
  }

  /**
   * Resolution is a fixpoint: storing the resolved values back into the
   * property bag and resolving again changes nothing, because every default
   * is itself an accepted value.
   */
  lemma ResolveStable(p: Props)
    ensures Resolve(Stored(Resolve(p), p.description)) == Resolve(p)
  {
  }

  /** An empty property bag resolves to the documented defaults, button shown and message hidden. */
  lemma ResolveEmpty()
    ensures Resolve(Props(None, None, None, None, None, None, None, None, None, None, None, None))
         == Model(DefaultCustomMessage, DefaultCustomMessageColor, DefaultWelcomeUserTextColor,
                  DefaultButtonText, DefaultButtonUrl, true, DefaultButtonColor, DefaultButtonTextColor,
                  DefaultBackgroundType, DefaultBackgroundValue, false)
  {
  }

  /**
   * Only the two button colours are validated: the welcome and message text
   * colours accept any non-empty text, so a named colour such as "red"
   * reaches the template unchanged.
   */
  lemma TextColorsNotValidated(p: Props)
    requires p.welcomeUserTextColor == Some("red") && p.customMessageColor == Some("red")
    requires p.buttonColor == Some("red")
    ensures Resolve(p).welcomeUserTextColor == "red" && !IsHexColor(Resolve(p).welcomeUserTextColor)
    ensures Resolve(p).customMessageColor == "red"
    ensures Resolve(p).buttonColor == DefaultButtonColor
  {
  }

}
