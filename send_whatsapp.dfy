/**
 * `send_whatsapp_generate_url` and the decision of
 * `send_whatsapp_shortcode_handler`. The WordPress collaborators the PHP code
 * calls (`get_option`, `get_the_ID`, `get_the_title`, `wp_strip_all_tags`,
 * `esc_url`, `esc_html`) are explicit inputs rather than global state.
 */
module SendWhatsApp {
  import opened PhpString
  import opened RawUrl
  import opened PhoneSanitizer

  /**
   * What the two functions read from WordPress: the stored options, the id
   * of the current post (`get_the_ID()`; its `false` is written 0, which is
   * just as falsy), the title lookup and the tag stripper.
   */
  datatype Site = Site(
    phoneOption: Bytes,
    prefixOption: Bytes,
    currentPostId: int,
    titleOf: int -> Bytes,
    stripTags: Bytes -> Bytes)

  datatype Option<T> = None | Some(value: T)

  const WaMe: Bytes := "https://wa.me/"
  const TextParam: Bytes := "?text="

  /** A null `$post_id` is replaced by the current post's id. */
  function ResolvePostId(postId: Option<int>, currentPostId: int): int {
    match postId
    case None => currentPostId
    case Some(id) => id
  }

  /** An integer id is falsy in PHP exactly when it is 0. */
  predicate IsFalsy(id: int) {
    id == 0
  }

  /** The message sent to the chat: the trimmed prefix, a space and the title, with tags stripped. */
  function Message(site: Site, id: int): Bytes {
    site.stripTags(Trim(site.prefixOption + " " + site.titleOf(id)))
  }

  /** The link for a phone and a message: the base, then `?text=` and the encoded message unless it is empty. */
  function ChatUrl(phone: Bytes, message: Bytes): (url: Bytes)
    ensures |url| >= |WaMe| + |phone| && url[..|WaMe|] == WaMe
    ensures '?' in url <==> message != []
  {
    var base := WaMe + Encode(phone);
    if message == [] then base else base + TextParam + Encode(message)
  }

  /** `send_whatsapp_generate_url($post_id)`. */
  function GenerateUrl(site: Site, postId: Option<int>): (url: Bytes)
    ensures url == [] <==> IsEmpty(site.phoneOption) || IsFalsy(ResolvePostId(postId, site.currentPostId))
    ensures url != [] ==> |url| > |WaMe| && url[..|WaMe|] == WaMe
    ensures url != [] ==> ('?' in url <==> Message(site, ResolvePostId(postId, site.currentPostId)) != [])
  {
    if IsEmpty(site.phoneOption) then []
    else
      var id := ResolvePostId(postId, site.currentPostId);
      if IsFalsy(id) then []
      else
        var message := Message(site, id);
        ChatUrl(site.phoneOption, message)
  }

  /** What a chat link carries: the destination number and, when present, the prefilled text. */
  datatype Link = Link(phone: Bytes, text: Option<Bytes>)

  /** Index of the first `c` in `s`, or `|s|` when there is none. */
  function IndexOf(s: Bytes, c: Byte): (i: nat)
    ensures i <= |s|
    ensures i < |s| ==> s[i] == c
    ensures forall k :: 0 <= k < i ==> s[k] != c
    decreases |s|
  {
    if s == [] || s[0] == c then 0 else 1 + IndexOf(s[1..], c)
  }

  /**
   * Reads a chat link back: the phone is the decoded path after `https://wa.me/`
   * up to the first "?", and an optional `text=` query is the decoded message.
   */
  function ParseLink(url: Bytes): Option<Link> {
    if |url| < |WaMe| || url[..|WaMe|] != WaMe then None
    else
      var rest := url[|WaMe|..];
      var q := IndexOf(rest, '?');
      var phone := Decode(rest[..q]);
      if q == |rest| then Some(Link(phone, None))
      else
        var query := rest[q..];
        if |query| >= |TextParam| && query[..|TextParam|] == TextParam then
          Some(Link(phone, Some(Decode(query[|TextParam|..]))))
        else None
  }

  lemma {:induction false} IndexOfAppend(a: Bytes, b: Bytes, c: Byte)
    requires c !in a
    requires b == [] || b[0] == c
    ensures IndexOf(a + b, c) == |a|
    decreases |a|
  {
    if a != [] {
      assert (a + b)[0] == a[0] && (a + b)[1..] == a[1..] + b;
      IndexOfAppend(a[1..], b, c);
    } else {
      assert a + b == b;
    }
  }

  /** A link is read as the decoded path up to the first "?" and the decoded text after `?text=`. */
  lemma ParseBaseAndQuery(p: Bytes, tail: Bytes)
    requires '?' !in p
    requires tail == [] || (|tail| >= |TextParam| && tail[..|TextParam|] == TextParam)
    ensures ParseLink(WaMe + p + tail)
      == Some(Link(Decode(p), if tail == [] then None else Some(Decode(tail[|TextParam|..]))))
  {
    var url := WaMe + p + tail;
    assert url[..|WaMe|] == WaMe && url[|WaMe|..] == p + tail;
    IndexOfAppend(p, tail, '?');
    assert (p + tail)[..|p|] == p && (p + tail)[|p|..] == tail;
  }

  /** A chat link reads back as its phone and message, with no query at all when the message is empty. */
  lemma ChatUrlParses(phone: Bytes, message: Bytes)
    ensures ParseLink(ChatUrl(phone, message)) == Some(Link(phone, if message == [] then None else Some(message)))
  {
    var p := Encode(phone);
    var tail := if message == [] then [] else TextParam + Encode(message);
    assert ChatUrl(phone, message) == WaMe + p + tail;
    ParseBaseAndQuery(p, tail);
    DecodeEncode(phone);
    if message != [] {
      assert tail[|TextParam|..] == Encode(message);
      DecodeEncode(message);
    }
  }

  /**
   * A generated link reads back as the stored phone and the message, with no
   * query at all when the message is empty.
   */
  lemma GenerateUrlParses(site: Site, postId: Option<int>)
    requires !IsEmpty(site.phoneOption)
    requires !IsFalsy(ResolvePostId(postId, site.currentPostId))
    ensures var message := Message(site, ResolvePostId(postId, site.currentPostId));
      ParseLink(GenerateUrl(site, postId))
      == Some(Link(site.phoneOption, if message == [] then None else Some(message)))
  {
    ChatUrlParses(site.phoneOption, Message(site, ResolvePostId(postId, site.currentPostId)));
  }

  /** With a digits-only phone, the digits appear verbatim after `https://wa.me/`. */
  lemma DigitPhoneVerbatim(site: Site, postId: Option<int>)
    requires !IsEmpty(site.phoneOption) && AllDigits(site.phoneOption)
    requires !IsFalsy(ResolvePostId(postId, site.currentPostId))
    ensures var url := GenerateUrl(site, postId);
      |url| >= |WaMe| + |site.phoneOption| && url[..|WaMe| + |site.phoneOption|] == WaMe + site.phoneOption
  {
    EncodeUnreserved(site.phoneOption);
  }

  /** Passing no id is the same as passing the current post's id. */
  lemma NullIdIsCurrentPost(site: Site)
    ensures GenerateUrl(site, None) == GenerateUrl(site, Some(site.currentPostId))
  {
  }

  /**
   * The stored phone is what the settings callback returned. A valid number
   * other than "0" gives a link to exactly those digits; "0" passes the check
   * but counts as PHP-empty, so it gives no link.
   */
  lemma SanitizedPhoneLink(input: Bytes, site: Site, postId: Option<int>)
    requires site.phoneOption == Sanitize(input).phone
    requires !Sanitize(input).invalidPhone
    requires !IsFalsy(ResolvePostId(postId, site.currentPostId))
    ensures GenerateUrl(site, postId) == [] <==> site.phoneOption == "0"
    ensures site.phoneOption != "0" ==>
      ParseLink(GenerateUrl(site, postId)).Some? && ParseLink(GenerateUrl(site, postId)).value.phone == DeleteSpaces(input)
  {
    if site.phoneOption != "0" {
      GenerateUrlParses(site, postId);
    }
  }

  const AnchorOpen: Bytes := "<a href=\""
  const TargetBlank: Bytes := "\" target=\"_blank\""
  const RelNoOpener: Bytes := " rel=\"noopener noreferrer\">"
  const AnchorAttributes: Bytes := TargetBlank + RelNoOpener
  const AnchorClose: Bytes := "</a>"

  /** The anchor markup of the shortcode, opening in a new tab without opener or referrer. */
  function Anchor(href: Bytes, caption: Bytes): (html: Bytes)
    ensures |html| > |caption| + |AnchorClose|
    ensures html[|html| - |caption| - |AnchorClose|..] == caption + AnchorClose
  {
    AnchorOpen + href + AnchorAttributes + caption + AnchorClose
  }

  /** `send_whatsapp_shortcode_handler()`: nothing without a link, else a link labelled with the post title. */
  function Shortcode(site: Site, escUrl: Bytes -> Bytes, escHtml: Bytes -> Bytes): (html: Bytes)
    ensures html == [] <==> GenerateUrl(site, None) == []
    ensures html != [] ==> html == Anchor(escUrl(GenerateUrl(site, None)), escHtml(site.titleOf(site.currentPostId)))
  {
    var url := GenerateUrl(site, None);
    if IsEmpty(url) then []
    else Anchor(escUrl(url), escHtml(site.titleOf(site.currentPostId)))
  }

  /**
   * The visible label is the escaped title: changing the stored prefix changes
   * neither whether the shortcode renders nor what its label is.
   */
  lemma ShortcodeLabelIsTitle(site: Site, prefix: Bytes, escUrl: Bytes -> Bytes, escHtml: Bytes -> Bytes)
    ensures var other := site.(prefixOption := prefix);
      var closing := escHtml(site.titleOf(site.currentPostId)) + AnchorClose;
      var a, b := Shortcode(site, escUrl, escHtml), Shortcode(other, escUrl, escHtml);
      (a == [] <==> b == [])
      && (a != [] ==> |a| >= |closing| && |b| >= |closing| && a[|a| - |closing|..] == closing && b[|b| - |closing|..] == closing)
  {
  }
}

