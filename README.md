# Welcome-user web part: configuration resolution and greeting markup

A Dafny model of the render path of `WelcomeUserWebPart`, a page widget that
greets the signed-in user with a styled banner: a greeting, an optional
custom message and an optional call-to-action button, all configured through
the host's property bag.

The model has four main parts, one module each:

- `Resolver` (resolver.dfy): the constant bindings at the top of `render`.
  They turn the property bag `Props`, where any field may be absent or
  empty, into the fully defaulted `Model`. Text fields use JavaScript `||`
  defaulting. `showButton` follows the `!== false` rule. The two button
  colours must match `/^#[0-9A-F]{6}$/i` or get their default.
- `Escaping` (escaping.dfy): HTML escaping as done by lodash `escape`
  (`& < > " '` become `&amp; &lt; &gt; &quot; &#39;`) and its inverse
  `unescape`. The library is not part of this model; `Escape` is the model's
  own definition, following lodash's documented table.
- `Renderer` (renderer.dfy): the markup template. It is a sequence of
  pieces: developer-written text (`Lit`) and interpolation points (`Hole`).
  The template depends only on the two display flags. `Emit` fills every
  hole with the escaped value of its field. `Render` yields the exact string
  the source assigns to `innerHTML`, whitespace included.
- `WebPart` (webpart.dfy): the display name chosen by `_getUserProperties`
  over the possible outcomes of the user lookup, and the whole render pass
  `RenderWebPart`.

`Options` (options.dfy) holds the `Option` type used for absent properties.
`Text` (text.dfy) holds the string vocabulary that the markup properties
are stated in: how often a character occurs (`Count`), whether a text
occurs (`Contains`), and whether one text occurs before another
(`Precedes`).

Two behaviours of the code are modelled as written:

- Only `buttonColor` and `buttonTextColor` are validated.
  `welcomeUserTextColor` and `customMessageColor` are labelled "(Hex Code)"
  in the property editor, but any non-empty text passes through them
  (`Resolver.TextColorsNotValidated`).
- `backgroundType` gets only `|| 'color'` defaulting; an unrecognised value
  is kept. Both branches of its test give `backgroundValue`, so it never
  affects the output (`Resolver.BackgroundStyle`).

Resolving is deterministic because Dafny functions are. So resolving the
same property bag twice gives equal models without a lemma.
`Resolver.ResolveStable` states the stronger fixpoint property.

## Model

| member | source | states |
|---|---|---|
| `Resolver.Resolve` | src/webparts/welcomeUser/WelcomeUserWebPart.ts:44-60 | Both button colours always satisfy the hex predicate. A valid colour is kept unchanged, case included; anything else, empty or absent gives `#0078d4` / `#FFFFFF`. Each text field is copied when non-empty and gets its literal default exactly when empty or absent. The button is hidden only by an explicit `false`. The message shows only for a truthy flag. No resolved text is empty. |
| `Resolver.IsHexColor` | src/webparts/welcomeUser/WelcomeUserWebPart.ts:52-57 | The regular expression `/^#[0-9A-F]{6}$/i`, with `i` case folding, matches exactly the texts of length seven that start with `#` and continue with six hexadecimal digits of either case. Nothing may come before or after them. |
| `Resolver.BackgroundStyle` | src/webparts/welcomeUser/WelcomeUserWebPart.ts:59-61 | The background style equals the resolved `backgroundValue` whatever `backgroundType` holds. |
| `Resolver.ResolveStable` | src/webparts/welcomeUser/WelcomeUserWebPart.ts:44-60 | Storing the resolved values back into the property bag and resolving again gives the same model: every default is itself an accepted value. |
| `Resolver.ResolveEmpty` | src/webparts/welcomeUser/WelcomeUserWebPart.ts:44-60 | An empty property bag resolves to the literal defaults, with the button shown and the message hidden. |
| `Resolver.TextColorsNotValidated` | src/webparts/welcomeUser/WelcomeUserWebPart.ts:45-57 | A non-hex text such as "red" is kept for the welcome and message text colours but replaced by the default for the button colour. |
| `Escaping.Entity` | src/webparts/welcomeUser/WelcomeUserWebPart.ts:3 | Each replacement is an entity `&...;` holding no markup character. |
| `Escaping.Escape` | src/webparts/welcomeUser/WelcomeUserWebPart.ts:3 | Escaped text holds no `<`, `>`, `"` or `'`. It is at least as long as the input and at most six times as long. |
| `Escaping.EscapePlain` | src/webparts/welcomeUser/WelcomeUserWebPart.ts:3 | Text without special characters is left unchanged. |
| `Escaping.EscapeAppend` | src/webparts/welcomeUser/WelcomeUserWebPart.ts:3 | Escaping distributes over concatenation. |
| `Escaping.UnescapeEscape` | src/webparts/welcomeUser/WelcomeUserWebPart.ts:3 | `unescape(escape(s)) == s` for every text: escaping loses nothing. |
| `Escaping.EscapeInjective` | src/webparts/welcomeUser/WelcomeUserWebPart.ts:3 | Two different texts never escape to the same markup. |
| `Escaping.EscapeElement` | src/webparts/welcomeUser/WelcomeUserWebPart.ts:3 | Text shaped like an element, `<w>body</w>`, escapes to `&lt;w&gt;body&lt;/w&gt;`. |
| `Renderer.Render` | src/webparts/welcomeUser/WelcomeUserWebPart.ts:63-81 | The markup has exactly as many of each `<`, `>`, `"` and `'` as the fixed template text for the two display flags. It always contains `Welcome, <escaped name>!`. |
| `Renderer.RegionOrder` | src/webparts/welcomeUser/WelcomeUserWebPart.ts:63-81 | The interpolated values appear in a fixed order. First the greeting's background, text colour and name, always. Then the message colour and text, only when the message is shown. Then the button's URL, colours and label, only when the button is shown. |
| `Renderer.MessageAfterGreeting` | src/webparts/welcomeUser/WelcomeUserWebPart.ts:63-72 | When the message is shown, the escaped message text appears in the markup after the whole greeting `Welcome, <escaped name>!`. |
| `Renderer.ButtonAfterGreeting` | src/webparts/welcomeUser/WelcomeUserWebPart.ts:70-77 | When the button is shown, the escaped button label appears in the markup after the greeting. |
| `Renderer.ButtonAfterMessage` | src/webparts/welcomeUser/WelcomeUserWebPart.ts:63-77 | When both are shown, the escaped button label appears in the markup after the escaped message text. |
| `Renderer.MarkupFromSkeleton` | src/webparts/welcomeUser/WelcomeUserWebPart.ts:63-81 | For any template and any values, each of `<`, `>`, `"` and `'` occurs in the emitted markup exactly as often as in the developer-written template text. The interpolated values add none. |
| `Renderer.RenderMarkupFixed` | src/webparts/welcomeUser/WelcomeUserWebPart.ts:63-81 | Two renders with the same display flags have the same number of each markup character, whatever the property texts and the user name hold. |
| `Renderer.GreetingShown` | src/webparts/welcomeUser/WelcomeUserWebPart.ts:68-71 | The markup always contains `Welcome, <escaped name>!`. |
| `WebPart.DisplayName` | src/webparts/welcomeUser/WelcomeUserWebPart.ts:88-95 | A failed lookup gives "User". Otherwise the title if it is non-empty, else the login name; an absent login name gives the empty text that `escape` makes of `undefined`. |
| `WebPart.RenderWebPart` | src/webparts/welcomeUser/WelcomeUserWebPart.ts:42-83 | For any property bag and any lookup outcome, the page has exactly as many of each markup character as the template for the flags' truthiness: message flag `true`, button flag not an explicit `false`. It greets the chosen display name, escaped. |
| `WebPart.FailedLookupGreetsUser` | src/webparts/welcomeUser/WelcomeUserWebPart.ts:89-94 | When the user lookup fails, the page still renders and greets with `Welcome, User!`. |
| `WebPart.ElementNameShownAsText` | src/webparts/welcomeUser/WelcomeUserWebPart.ts:70 | A title such as `<script>alert(1)</script>` appears in the greeting in its escaped form, as text. |
| `WebPart.PageMarkupFixed` | src/webparts/welcomeUser/WelcomeUserWebPart.ts:63-81 | For two property bags whose message flags are both truthy or both not, and whose button flags are both explicit `false` or both not, and for any two lookup outcomes, the rendered pages have the same number of each markup character. |

## Left out

- `onInit` and the PnP client setup (line 38): host wiring over libraries that are not part of this model.
- The user lookup `this.sp.web.currentUser()` (line 90): network I/O. The model takes its outcome as a `UserLookup` value: a record with optional `Title` and `LoginName`, or a failure.
- `console.error` (line 93): logging with no effect on the output.
- The write to `this.domElement.innerHTML` (line 67): `Render` returns the string instead of storing it.
- The promise chain and overlapping renders (lines 43, 82): asynchrony with last-writer-wins on the element. This is not modelled.
- `dataVersion` (lines 98-100) and `getPropertyPaneConfiguration` (lines 102-175): host registration. The editor's initial values there are not render-time defaults and are not used.
- `description`: kept in `Props` but never read by `render`.
- Non-string and non-boolean values in the property bag: each property is either its declared type or absent. JavaScript coercion of other types is not modelled.
- The code of lodash `escape`: a foreign library. `Escaping.Escape` follows its documented behaviour and is not checked against that code.
- Strings are sequences of Unicode scalar values, while JavaScript strings are sequences of UTF-16 code units. Lone surrogates cannot be represented, and the length bounds on `Escape` count scalar values. The hex test and the escape table use only ASCII characters, so neither depends on this.
