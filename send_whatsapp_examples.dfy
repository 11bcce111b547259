/**
 * Worked examples of the link builder, with a tag stripper that leaves plain
 * text alone. Each example takes its strings as parameters fixed by its
 * `requires`, and each literal fact is proved in a small lemma of its own.
 */
module SendWhatsAppExamples {
  import opened PhpString
  import opened RawUrl
  import opened PhoneSanitizer
  import opened SendWhatsApp

  function PlainSite(phone: Bytes, prefix: Bytes, title: Bytes): (site: Site)
    ensures site.phoneOption == phone && site.prefixOption == prefix && site.currentPostId == 1
    ensures forall id :: site.titleOf(id) == title
    ensures forall m :: site.stripTags(m) == m
  {
    Site(phone, prefix, 1, (id: int) => title, (m: Bytes) => m)
  }

  /** The message of a plain site is just the trimmed concatenation. */
  lemma PlainMessage(phone: Bytes, prefix: Bytes, title: Bytes)
    ensures Message(PlainSite(phone, prefix, title), 1) == Trim(prefix + " " + title)
  {
  }

  /** With a phone, a plain site's link is the chat link for its trimmed message. */
  lemma PlainUrl(phone: Bytes, prefix: Bytes, title: Bytes)
    requires !IsEmpty(phone)
    ensures GenerateUrl(PlainSite(phone, prefix, title), None) == ChatUrl(phone, Trim(prefix + " " + title))
  {
  }

  /**
   * `PhpString.TrimUnique` restated for a string given as padding, text and
   * padding, the form in which the examples build their messages.
   */
  lemma TrimPadded(left: Bytes, text: Bytes, right: Bytes)
    requires AllTrimChars(left) && AllTrimChars(right)
    requires text != [] ==> !IsTrimChar(text[0]) && !IsTrimChar(text[|text| - 1])
    ensures Trim(left + text + right) == text
  {
    var s := left + text + right;
    assert s[..|left|] == left && s[|left| + |text|..] == right && s[|left|..|left| + |text|] == text;
    TrimUnique(s, |left|, |left| + |text|);
  }

  /** With an unreserved phone and message, both appear verbatim in the link. */
  lemma UnreservedChatUrl(phone: Bytes, message: Bytes)
    requires AllUnreserved(phone) && AllUnreserved(message) && message != []
    ensures ChatUrl(phone, message) == WaMe + phone + TextParam + message
  {
    EncodeUnreserved(phone);
    EncodeUnreserved(message);
  }

  lemma EncodeAppend6(a: Bytes, b: Bytes, c: Bytes, d: Bytes, e: Bytes, f: Bytes)
    ensures Encode(a + b + c + d + e + f) == Encode(a) + Encode(b) + Encode(c) + Encode(d) + Encode(e) + Encode(f)
  {
    EncodeAppend(a + b + c + d + e, f);
    EncodeAppend(a + b + c + d, e);
    EncodeAppend(a + b + c, d);
    EncodeAppend(a + b, c);
    EncodeAppend(a, b);
  }

  /** A space is written `%20`, a colon `%3A` and a plus sign `%2B`. */
  lemma EncodeSpaceColonPlus(sp: Bytes, co: Bytes, plus: Bytes)
    requires sp == " " && co == ":" && plus == "+"
    ensures Encode(sp) == "%20" && Encode(co) == "%3A" && Encode(plus) == "%2B"
  {
  }

  // ---- `https://wa.me/15551234567?text=Hello` ----

  lemma HelloFacts(phone: Bytes, prefix: Bytes, title: Bytes)
    requires phone == "15551234567" && prefix == "" && title == "Hello"
    ensures AllUnreserved(phone) && AllUnreserved(title) && title != []
    ensures !IsTrimChar(title[0]) && !IsTrimChar(title[|title| - 1])
    ensures prefix + " " + title == [' '] + title + [] && AllTrimChars([' '])
  {
  }

  /** An empty prefix leaves just the title. */
  lemma TitleOnly(phone: Bytes, prefix: Bytes, title: Bytes)
    requires phone == "15551234567" && prefix == "" && title == "Hello"
    ensures GenerateUrl(PlainSite(phone, prefix, title), None) == WaMe + phone + TextParam + title
  {
    HelloFacts(phone, prefix, title);
    PlainMessage(phone, prefix, title);
    TrimPadded([' '], title, []);
    UnreservedChatUrl(phone, title);
  }

  // ---- `https://wa.me/447911123456?text=Message%3A%20Spring%20Sale` ----

  lemma SpringSaleWords(message: Bytes, w1: Bytes, co: Bytes, sp: Bytes, w2: Bytes, w3: Bytes)
    requires message == "Message: Spring Sale"
    requires w1 == "Message" && co == ":" && sp == " " && w2 == "Spring" && w3 == "Sale"
    ensures message == w1 + co + sp + w2 + sp + w3
  {
  }

  lemma SpringSaleEncodedWords(encoded: Bytes, w1: Bytes, co: Bytes, sp: Bytes, w2: Bytes, w3: Bytes)
    requires encoded == "Message%3A%20Spring%20Sale"
    requires w1 == "Message" && co == "%3A" && sp == "%20" && w2 == "Spring" && w3 == "Sale"
    ensures encoded == w1 + co + sp + w2 + sp + w3
  {
  }

  lemma SpringSaleUnreserved(w1: Bytes, w2: Bytes, w3: Bytes)
    requires w1 == "Message" && w2 == "Spring" && w3 == "Sale"
    ensures Encode(w1) == w1 && Encode(w2) == w2 && Encode(w3) == w3
  {
    EncodeUnreserved(w1);
    EncodeUnreserved(w2);
    EncodeUnreserved(w3);
  }

  /** The colon and the spaces of the message are percent-encoded, the letters are not. */
  lemma EncodeSpringSale(message: Bytes, encoded: Bytes)
    requires message == "Message: Spring Sale" && encoded == "Message%3A%20Spring%20Sale"
    ensures Encode(message) == encoded
  {
    var w1: Bytes, w2: Bytes, w3: Bytes, co: Bytes, sp: Bytes := "Message", "Spring", "Sale", ":", " ";
    SpringSaleWords(message, w1, co, sp, w2, w3);
    EncodeAppend6(w1, co, sp, w2, sp, w3);
    EncodeSpaceColonPlus(sp, co, "+");
    SpringSaleUnreserved(w1, w2, w3);
    SpringSaleEncodedWords(encoded, w1, "%3A", "%20", w2, w3);
  }

  lemma SpringSaleFacts(phone: Bytes, prefix: Bytes, title: Bytes, message: Bytes)
    requires phone == "447911123456" && prefix == "Message:" && title == "Spring Sale"
    requires message == "Message: Spring Sale"
    ensures AllUnreserved(phone) && !IsEmpty(phone) && message != []
    ensures prefix + " " + title == [] + message + []
    ensures !IsTrimChar(message[0]) && !IsTrimChar(message[|message| - 1])
  {
  }

  /**
   * Phone 447911123456, prefix "Message:" and title "Spring Sale" give
   * `https://wa.me/447911123456?text=Message%3A%20Spring%20Sale`.
   */
  lemma SpringSaleUrl(phone: Bytes, prefix: Bytes, title: Bytes, message: Bytes, encoded: Bytes)
    requires phone == "447911123456" && prefix == "Message:" && title == "Spring Sale"
    requires message == "Message: Spring Sale" && encoded == "Message%3A%20Spring%20Sale"
    ensures GenerateUrl(PlainSite(phone, prefix, title), None) == WaMe + phone + TextParam + encoded
  {
    SpringSaleFacts(phone, prefix, title, message);
    PlainUrl(phone, prefix, title);
    TrimPadded([], message, []);
    assert Trim(prefix + " " + title) == message;
    EncodeUnreserved(phone);
    EncodeSpringSale(message, encoded);
    assert ChatUrl(phone, message) == WaMe + Encode(phone) + TextParam + Encode(message);
  }

  /** The shortcode for that post is an anchor to that link whose visible text is the title. */
  lemma SpringSaleShortcode(phone: Bytes, prefix: Bytes, title: Bytes, escUrl: Bytes -> Bytes, escHtml: Bytes -> Bytes)
    requires phone == "447911123456" && prefix == "Message:" && title == "Spring Sale"
    ensures var site := PlainSite(phone, prefix, title);
      Shortcode(site, escUrl, escHtml) == Anchor(escUrl(GenerateUrl(site, None)), escHtml(title))
  {
    assert !IsEmpty(phone);
  }

  // ---- a prefix with an empty title ----

  lemma HiFacts(phone: Bytes, prefix: Bytes, title: Bytes)
    requires phone == "15551234567" && prefix == "Hi" && title == ""
    ensures AllUnreserved(phone) && AllUnreserved(prefix) && prefix != []
    ensures !IsTrimChar(prefix[0]) && !IsTrimChar(prefix[|prefix| - 1])
    ensures prefix + " " + title == [] + prefix + [' '] && AllTrimChars([' '])
  {
  }

  /** A prefix with an empty title still gives a link, whose text is the prefix alone. */
  lemma EmptyTitleStillLinks(phone: Bytes, prefix: Bytes, title: Bytes)
    requires phone == "15551234567" && prefix == "Hi" && title == ""
    ensures GenerateUrl(PlainSite(phone, prefix, title), None) == WaMe + phone + TextParam + prefix
  {
    HiFacts(phone, prefix, title);
    PlainMessage(phone, prefix, title);
    TrimPadded([], prefix, [' ']);
    UnreservedChatUrl(phone, prefix);
  }

  // ---- a phone that fails the check ----

  lemma PlusPhoneFacts(input: Bytes, plus: Bytes, cc: Bytes, sp: Bytes, digits: Bytes, stored: Bytes)
    requires input == "+39 333" && stored == "+39333"
    requires plus == "+" && cc == "39" && sp == " " && digits == "333"
    ensures input == plus + cc + sp + digits && stored == plus + cc + digits
    ensures NoSpace(plus + cc) && NoSpace(digits) && DeleteSpaces(sp) == []
    ensures !IsPcreSpace(input[0]) && !IsDigit(input[0])
  {
  }

  lemma PlusPhoneEncoded(plus: Bytes, rest: Bytes, encoded: Bytes)
    requires plus == "%2B" && rest == "39333" && encoded == "%2B39333"
    ensures encoded == plus + rest
  {
  }

  /** "+39 333" is stored as "+39333", and the `invalid_phone` error is raised. */
  lemma PlusPhoneSanitized(input: Bytes, stored: Bytes)
    requires input == "+39 333" && stored == "+39333"
    ensures Sanitize(input) == Sanitized(stored, true)
  {
    var plus: Bytes, cc: Bytes, sp: Bytes, digits: Bytes := "+", "39", " ", "333";
    PlusPhoneFacts(input, plus, cc, sp, digits, stored);
    DeleteSpacesAppend(plus + cc + sp, digits);
    DeleteSpacesAppend(plus + cc, sp);
    DeleteSpacesNoSpace(plus + cc);
    DeleteSpacesNoSpace(digits);
    SanitizeRejectsNonDigit(input, 0);
  }

  lemma PlusPhoneEncode(stored: Bytes, encoded: Bytes)
    requires stored == "+39333" && encoded == "%2B39333"
    ensures Encode(stored) == encoded
  {
    var plus: Bytes, rest: Bytes := "+", "39333";
    assert stored == plus + rest && AllUnreserved(rest);
    EncodeAppend(plus, rest);
    EncodeUnreserved(rest);
    EncodeSpaceColonPlus(" ", ":", plus);
    PlusPhoneEncoded("%2B", rest, encoded);
  }

  /**
   * The stored phone is whatever the callback returned, even when it raised
   * `invalid_phone`: "+39 333" is stored as "+39333" and linked as `%2B39333`.
   */
  lemma InvalidPhoneIsStillLinked(input: Bytes, stored: Bytes, encoded: Bytes, title: Bytes)
    requires input == "+39 333" && stored == "+39333" && encoded == "%2B39333"
    ensures Sanitize(input).invalidPhone
    ensures var url := GenerateUrl(PlainSite(Sanitize(input).phone, "", title), None);
      |url| >= |WaMe| + |encoded| && url[..|WaMe| + |encoded|] == WaMe + encoded
  {
    PlusPhoneSanitized(input, stored);
    PlusPhoneEncode(stored, encoded);
    assert !IsEmpty(stored);
  }

  // ---- the phone "0" ----

  /** "0" passes the digits check, but PHP's `empty` treats it as no phone, so no link is made. */
  lemma ZeroPhoneGivesNoLink(input: Bytes, prefix: Bytes, title: Bytes)
    requires input == "0"
    ensures Sanitize(input) == Sanitized(input, false)
    ensures GenerateUrl(PlainSite(Sanitize(input).phone, prefix, title), None) == []
  {
    SanitizeDigits(input);
  }
}
