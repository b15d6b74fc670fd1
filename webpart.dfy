/**
 * The web part's render pass end to end: the name `_getUserProperties`
 * settles on, the resolved configuration, and the markup built from both.
 *
 * The user lookup itself is a network call into the host's directory
 * client; it appears here only through its possible outcomes.
 */
module WebPart {

  import opened Options
  import opened Escaping
  import opened Text
  import Resolver
  import Renderer

  /** What the current-user lookup produced: a user record, or any failure. */
  datatype UserLookup = Found(title: Option<string>, loginName: Option<string>) | Failed

  const FallbackName := "User"

  /**
   * `user.Title || user.LoginName`, or "User" when the lookup failed. A
   * missing login name makes the source return `undefined`, which `escape`
   * turns into the empty string; the model returns that empty string.
   */
  function DisplayName(u: UserLookup): (name: string)
    ensures u.Failed? ==> name == FallbackName
    ensures u.Found? && Resolver.Truthy(u.title) ==> name == u.title.value
    ensures u.Found? && !Resolver.Truthy(u.title) && u.loginName.Some? ==> name == u.loginName.value
    ensures u.Found? && !Resolver.Truthy(u.title) && u.loginName.None? ==> name == ""
  {
    match u
    case Failed => FallbackName
    case Found(title, loginName) =>
      if Resolver.Truthy(title) then title.value
      else match loginName
        case Some(login) => login
        case None => ""
  }

  /**
   * The markup one render pass writes, given the property bag and the
   * lookup's outcome. Its markup characters are fixed by the two display
   * flags of the property bag alone, and it greets the chosen name.
   */
  function RenderWebPart(p: Resolver.Props, u: UserLookup): (html: string)
    ensures forall c :: IsMarkup(c) ==>
      Count(c, html) == Count(c, Renderer.Skeleton(Renderer.Template(p.showCustomMessage == Some(true), p.showButton != Some(false))))
    ensures Contains(html, "Welcome, " + Escape(DisplayName(u)) + "!")
  {
    Renderer.Render(Resolver.Resolve(p), DisplayName(u))
  }

  /** A failed lookup never reaches the page as an error: the greeting reads "Welcome, User!". */
  lemma FailedLookupGreetsUser(p: Resolver.Props)
    ensures Contains(RenderWebPart(p, Failed), "Welcome, User!")
  {
    assert Plain(FallbackName);
    EscapePlain(FallbackName);
    assert "Welcome, " + Escape(FallbackName) + "!" == "Welcome, User!";
  }

  /**
   * A title holding an element such as `<script>alert(1)</script>` is shown
   * as text: the greeting carries its escaped form.
   */
  lemma ElementNameShownAsText(p: Resolver.Props, w: string, body: string, loginName: Option<string>)
    requires Plain(w) && Plain(body)
    ensures Contains(RenderWebPart(p, Found(Some("<" + w + ">" + body + "</" + w + ">"), loginName)),
                     "Welcome, " + ("&lt;" + w + "&gt;" + body + "&lt;/" + w + "&gt;") + "!")
  {
    var name := "<" + w + ">" + body + "</" + w + ">";
    EscapeElement(w, body);
    assert DisplayName(Found(Some(name), loginName)) == name;
  }

  /**
   * Whatever the user record holds, and whatever text the property bag
   * holds, the markup characters of the page are those of the template
   * chosen by the two display flags.
   */
  lemma PageMarkupFixed(p: Resolver.Props, u: UserLookup, p': Resolver.Props, u': UserLookup, c: char)
    requires IsMarkup(c)
    requires (p.showCustomMessage == Some(true)) == (p'.showCustomMessage == Some(true))
    requires (p.showButton == Some(false)) == (p'.showButton == Some(false))
    ensures Count(c, RenderWebPart(p, u)) == Count(c, RenderWebPart(p', u'))
  {
    Renderer.RenderMarkupFixed(Resolver.Resolve(p), DisplayName(u), Resolver.Resolve(p'), DisplayName(u'), c);
  }

}
