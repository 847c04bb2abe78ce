/** The link transform `make_clickable_link_text`: a raw URL cell becomes an HTML anchor
    whose visible text is "Link" and which opens in a new tab. */
module Links {
  import opened Cells

  const AnchorOpen := "<a href=\""
  const AnchorClose := "\" target=\"_blank\">Link</a>"

  /** The check `str(url).startswith('http')`: case-sensitive, and it does not look for
      "://", so "httpfoo" passes and "HTTP://x" does not. */
  predicate StartsWithHttp(s: string)
    ensures StartsWithHttp(s) <==> |s| >= 4 && s[0] == 'h' && s[1] == 't' && s[2] == 't' && s[3] == 'p'
  {
    "http" <= s
  }

  /** A cell the transform turns into a link: present, and its text starts with "http". */
  predicate IsLinkable(c: Cell) {
    c.Present? && StartsWithHttp(c.text)
  }

  function Anchor(url: string): (r: string)
    ensures |r| == |AnchorOpen| + |url| + |AnchorClose|
    ensures r[..|AnchorOpen|] == AnchorOpen
    ensures r[|AnchorOpen|..|AnchorOpen| + |url|] == url
    ensures r[|AnchorOpen| + |url|..] == AnchorClose
  {
    AnchorOpen + url + AnchorClose
  }

  /** `make_clickable_link_text`: "" for a missing value or one not starting with "http",
      the anchor around the URL otherwise. */
  function MakeClickableLinkText(c: Cell): (r: string)
    ensures r == "" <==> !IsLinkable(c)
    ensures IsLinkable(c) ==> HrefOf(r) == Some(c.text)
  {
    if c.Missing? || !StartsWithHttp(c.text) then "" else
      var a := Anchor(c.text);
      HrefOfAnchor(c.text);
      a
  }

  datatype Option<T> = None | Some(value: T)

  /** Reads back the URL an anchor of the shape above points at; `None` for any other text. */
  function HrefOf(html: string): (r: Option<string>)
    ensures r.Some? ==> Anchor(r.value) == html
  {
    if |html| >= |AnchorOpen| + |AnchorClose|
       && html[..|AnchorOpen|] == AnchorOpen
       && html[|html| - |AnchorClose|..] == AnchorClose
    then
      var url := html[|AnchorOpen|..|html| - |AnchorClose|];
      assert html == AnchorOpen + url + AnchorClose by {
        assert html == html[..|AnchorOpen|] + url + html[|html| - |AnchorClose|..];
      }
      Some(url)
    else None
  }

  /** Reading back an anchor gives the URL it was built from. */
  lemma HrefOfAnchor(url: string)
    ensures HrefOf(Anchor(url)) == Some(url)
  {
    var a := Anchor(url);
    assert a[|a| - |AnchorClose|..] == AnchorClose;
    assert a[|AnchorOpen|..|a| - |AnchorClose|] == url;
  }

  /** Two cells that become links become the same link only when they hold the same URL. */
  lemma LinkInjective(c: Cell, d: Cell)
    requires IsLinkable(c) && IsLinkable(d)
    requires MakeClickableLinkText(c) == MakeClickableLinkText(d)
    ensures c == d
  {
  }

  /** Values the transform turns into "": a missing value, another scheme, and "HTTP" in
      capitals (the test is case-sensitive). */
  lemma LinkRejects()
    ensures MakeClickableLinkText(Missing) == ""
    ensures MakeClickableLinkText(Present("ftp://x")) == ""
    ensures MakeClickableLinkText(Present("HTTP://example.com")) == ""
  {
    assert "ftp://x"[0] != "http"[0];
    assert "HTTP://example.com"[0] != "http"[0];
  }

  /** Values the transform turns into links: an HTTP URL, and any text that merely starts
      with the four letters "http". */
  lemma LinkAccepts()
    ensures MakeClickableLinkText(Present("http://example.com")) == AnchorOpen + "http://example.com" + AnchorClose
    ensures MakeClickableLinkText(Present("httpfoo")) == AnchorOpen + "httpfoo" + AnchorClose
  {
    assert StartsWithHttp("http://example.com") by { assert "http://example.com"[..4] == "http"; }
    assert StartsWithHttp("httpfoo") by { assert "httpfoo"[..4] == "http"; }
  }
}
