# Send WhatsApp — a Dafny model of the link builder

Send WhatsApp is a WordPress plugin. It stores a phone number and a text
prefix as options. It offers a `[send_whatsapp_link]` shortcode that renders a
`https://wa.me/<phone>?text=<message>` link, which opens a WhatsApp chat with
that number. The message is prefilled from the current post's title.

This project models the plugin's three pieces of logic as pure Dafny
functions, together with the PHP built-ins they rely on:

- `PhoneSanitizer` models `send_whatsapp_sanitize_phone`, the settings
  callback for the phone option. It deletes every PCRE `\s` byte with
  `preg_replace('/\s+/', '', …)`. It checks the rest against `^[0-9]+$`.
  It returns the stripped string whether or not the check passed. The
  `invalid_phone` settings error is the returned `invalidPhone` flag.
- `SendWhatsApp.GenerateUrl` models `send_whatsapp_generate_url`:
  - PHP-`empty` phone (the string `""` or `"0"`):
    no link.
  - A null post id falls back to the current post's id, and a falsy id gives no link.
  - `message = wp_strip_all_tags(trim(prefix . ' ' . title))`.
  - The link is `https://wa.me/` + `rawurlencode(phone)`. When the message is
    not empty, `?text=` + `rawurlencode(message)` follows.
- `SendWhatsApp.Shortcode` models `send_whatsapp_shortcode_handler`. It
  renders nothing when there is no link. Otherwise it renders an anchor to the
  escaped link, labelled with the current post's escaped title.
- `PhpString` models PHP `trim` (default character list `" \t\n\r\0\x0B"`)
  and `empty` on strings. `RawUrl` models `rawurlencode`, which is
  percent-encoding as in RFC 3986. The unreserved characters of section 2.3
  pass through, and every other byte becomes `%HH` with upper-case
  hexadecimal digits (section 2.1). It also models `rawurldecode`, the
  partner of the encoder's round-trip proof.

PHP strings are byte strings. A byte is modelled as a `char` below 256
(`PhpString.Byte`), so literals stay readable.

The WordPress collaborators are explicit inputs, gathered in
`SendWhatsApp.Site`:
- the stored phone and prefix options (`get_option`);
- the current post id (`get_the_ID`; its `false` is written 0, which PHP also treats as falsy);
- the title lookup (`get_the_title`);
- the tag stripper (`wp_strip_all_tags`).

`esc_url` and `esc_html` are function parameters of `Shortcode`. None of these
collaborators is interpreted.

The partners the operations are proved against:
- `PhoneSanitizer.DeleteSpaces`, a byte-by-byte deletion of whitespace. The
  run-by-run regular-expression replacement is proved equal to it.
- `PhpString.TrimUnique`, which characterises `trim` as the unique slice
  padded by trim bytes.
- `RawUrl.Decode` (`rawurldecode`) and the grammar `RawUrl.IsEncoded` of
  unreserved bytes and `%HH` triples.
- `SendWhatsApp.ParseLink`, which reads a `wa.me` link back into its phone
  and its optional message.

### Behaviour to note

- The title is never tested. With a prefix and an empty title, the code still
  builds a link whose text is the prefix
  (`SendWhatsAppExamples.EmptyTitleStillLinks`). With neither, the link has no
  `?text=`.
- A phone that raised `invalid_phone` is still returned by the callback.
  WordPress stores it, and `rawurlencode` then puts it into the link:
  with `"+39 333"` the link starts with `https://wa.me/%2B39333`
  (`SendWhatsAppExamples.InvalidPhoneIsStillLinked`).
- The phone `"0"` passes the digits check, but PHP's `empty` treats it as no
  phone, so no link is made (`SendWhatsAppExamples.ZeroPhoneGivesNoLink`).

## Model

| member | source | states |
|---|---|---|
| `PhpString.IsEmpty` | send-whatsapp.php:129 | `empty()` on a string: `""` is empty, a one-byte string is empty exactly when it is `"0"`, and no longer string is |
| `PhpString.TrimLeft` | send-whatsapp.php:143 | the result is a suffix of the input, everything dropped is a trim byte, and it does not start with one |
| `PhpString.TrimRight` | send-whatsapp.php:143 | the result is a prefix of the input, everything dropped is a trim byte, and it does not end with one |
| `PhpString.Trim` | send-whatsapp.php:143 | a non-empty result neither starts nor ends with a trim byte; the result is empty exactly when the input consists of trim bytes only |
| `PhpString.TrimIsSlice` | send-whatsapp.php:143 | the result is one contiguous slice of the input, with only trim bytes before and after it |
| `PhpString.TrimUnique` | send-whatsapp.php:143 | any slice padded only by trim bytes, which neither starts nor ends with one, is what `trim` returns |
| `PhpString.TrimIdempotent` | send-whatsapp.php:143 | trimming twice is trimming once |
| `RawUrl.EncodeByte` | send-whatsapp.php:146 | an unreserved byte is kept; any other byte becomes `%` plus two upper-case hex digits whose value is the byte's code |
| `RawUrl.Encode` | send-whatsapp.php:146 | the output holds only unreserved characters and `%`, and is between one and three times the input's length |
| `RawUrl.EncodeIsEncoded` | send-whatsapp.php:146 | the output is a sequence of unreserved characters and `%HH` triples with upper-case digits, nothing else |
| `RawUrl.DecodeEncode` | send-whatsapp.php:152 | percent-decoding the output gives back the original bytes |
| `RawUrl.EncodeInjective` | send-whatsapp.php:152 | different strings never encode alike |
| `RawUrl.EncodeUnreserved` | send-whatsapp.php:146 | a string of unreserved characters (such as a digits-only phone) is encoded verbatim |
| `RawUrl.EncodeAppend` | send-whatsapp.php:146 | the encoding of a concatenation is the concatenation of the encodings |
| `PhoneSanitizer.DeleteSpaces` | send-whatsapp.php:62 | the reference deletion leaves no whitespace byte and never lengthens the input |
| `PhoneSanitizer.SkipSpaceRun` | send-whatsapp.php:62 | one match of `\s+` consumes exactly the leading run of whitespace, leaving a suffix that starts with a non-whitespace byte |
| `PhoneSanitizer.ReplaceSpaceRuns` | send-whatsapp.php:62 | the `preg_replace` result holds no whitespace byte and is never longer than the input; `ReplaceSpaceRunsDeletesSpaces` proves it equal to `DeleteSpaces` |
| `PhoneSanitizer.ReplaceSpaceRunsDeletesSpaces` | send-whatsapp.php:62 | replacing each run of whitespace by nothing equals deleting each whitespace byte |
| `PhoneSanitizer.MatchesDigitPattern` | send-whatsapp.php:64 | a match starts with a digit; on a string without whitespace, `^[0-9]+$` (whose `$` also accepts a final newline) matches exactly the non-empty digit strings |
| `PhoneSanitizer.Sanitize` | send-whatsapp.php:61-73 | the returned phone is the input with its whitespace deleted, in both outcomes; `invalid_phone` is raised exactly when that phone is empty or holds a non-digit |
| `PhoneSanitizer.DeleteSpacesAppend` | send-whatsapp.php:62 | deletion distributes over concatenation, so the surviving bytes keep their order |
| `PhoneSanitizer.DeleteSpacesNoSpace` | send-whatsapp.php:62 | a string without whitespace is left unchanged |
| `PhoneSanitizer.DeleteSpacesKeeps` | send-whatsapp.php:62 | every non-whitespace byte survives, between the survivors of what precedes and what follows it |
| `PhoneSanitizer.SanitizeIdempotent` | send-whatsapp.php:62-72 | sanitising the sanitised phone gives the same phone and the same error flag |
| `PhoneSanitizer.SanitizeDigits` | send-whatsapp.php:62-72 | a non-empty digit string is returned unchanged with no error |
| `PhoneSanitizer.SanitizeRejectsNonDigit` | send-whatsapp.php:64-70 | any byte that is neither whitespace nor a digit raises `invalid_phone` |
| `PhoneSanitizer.SanitizeBlank` | send-whatsapp.php:62-70 | an input of whitespace only leaves an empty phone and raises `invalid_phone` |
| `SendWhatsApp.ResolvePostId` | send-whatsapp.php:133-135 | an id that is given is used as it is, and a null id becomes the current post's id; no contract of its own, `NullIdIsCurrentPost` states the consequence for the link |
| `SendWhatsApp.IsFalsy` | send-whatsapp.php:137-139 | `! $post_id` on an integer id holds exactly for 0; no contract of its own, `GenerateUrl`'s first `ensures` states that such an id gives no link |
| `SendWhatsApp.Message` | send-whatsapp.php:141-144 | the tag stripper applied to the trimmed `prefix . ' ' . title`; no contract of its own, `GenerateUrlParses` states that it is the text the link carries and `SendWhatsAppExamples.PlainUrl` what it is without tags |
| `SendWhatsApp.GenerateUrl` | send-whatsapp.php:126-153 | the link is empty exactly when the stored phone is PHP-empty or the resolved post id is falsy; otherwise it starts with `https://wa.me/` and contains `?` exactly when the message is non-empty |
| `SendWhatsApp.ChatUrl` | send-whatsapp.php:146-152 | the link starts with `https://wa.me/`, is at least as long as that base and the phone together, and contains `?` exactly when the message is non-empty; `ChatUrlParses` reads it back |
| `SendWhatsApp.ChatUrlParses` | send-whatsapp.php:146-152 | reading a built link back gives its phone, and gives its message exactly when the message is non-empty |
| `SendWhatsApp.GenerateUrlParses` | send-whatsapp.php:126-153 | a generated link reads back as the stored phone and the trimmed, tag-stripped message, with no query when the message is empty |
| `SendWhatsApp.DigitPhoneVerbatim` | send-whatsapp.php:146 | a digits-only phone appears verbatim right after `https://wa.me/` |
| `SendWhatsApp.NullIdIsCurrentPost` | send-whatsapp.php:133-139 | passing no post id behaves as passing the current post's id |
| `SendWhatsApp.SanitizedPhoneLink` | send-whatsapp.php:129-146 | with a phone stored by the callback without error, there is a link exactly when the phone is not `"0"`, and it reads back as the input minus its whitespace |
| `SendWhatsApp.Anchor` | send-whatsapp.php:170-174 | the anchor ends with the label followed by `</a>` |
| `SendWhatsApp.Shortcode` | send-whatsapp.php:160-175 | the output is empty exactly when `GenerateUrl` gave no link; otherwise it is the anchor to the escaped link labelled with the escaped current title |
| `SendWhatsApp.ShortcodeLabelIsTitle` | send-whatsapp.php:167-174 | whatever the stored prefix, the shortcode renders under the same conditions and its label is the post title |
| `SendWhatsAppExamples.PlainUrl` | send-whatsapp.php:141-152 | without tags, the link is the chat link for the trimmed `prefix . ' ' . title` |
| `SendWhatsAppExamples.TrimPadded` | send-whatsapp.php:143 | `trim` removes exactly the trim-byte padding around a slice; this is `PhpString.TrimUnique` for a string written as padding, text and padding |
| `SendWhatsAppExamples.UnreservedChatUrl` | send-whatsapp.php:146-152 | an unreserved phone and message appear verbatim in the link |
| `SendWhatsAppExamples.TitleOnly` | send-whatsapp.php:141-152 | phone `15551234567`, empty prefix and title `Hello` give `https://wa.me/15551234567?text=Hello` |
| `SendWhatsAppExamples.EncodeSpringSale` | send-whatsapp.php:152 | `Message: Spring Sale` encodes as `Message%3A%20Spring%20Sale` |
| `SendWhatsAppExamples.SpringSaleUrl` | send-whatsapp.php:141-152 | phone `447911123456`, prefix `Message:` and title `Spring Sale` give `https://wa.me/447911123456?text=Message%3A%20Spring%20Sale` |
| `SendWhatsAppExamples.SpringSaleShortcode` | send-whatsapp.php:160-174 | that post's shortcode is the anchor to that link labelled with the title |
| `SendWhatsAppExamples.EmptyTitleStillLinks` | send-whatsapp.php:141-152 | a prefix with an empty title still gives a link whose text is the prefix |
| `SendWhatsAppExamples.PlusPhoneSanitized` | send-whatsapp.php:62-72 | `+39 333` is stored as `+39333` and raises `invalid_phone` |
| `SendWhatsAppExamples.PlusPhoneEncode` | send-whatsapp.php:146 | `+39333` encodes as `%2B39333` |
| `SendWhatsAppExamples.InvalidPhoneIsStillLinked` | send-whatsapp.php:61-73 | a phone that raised `invalid_phone` still ends up, encoded, in the link |
| `SendWhatsAppExamples.ZeroPhoneGivesNoLink` | send-whatsapp.php:129-131 | the phone `"0"` passes the check but yields no link, whatever the prefix and title |

## Left out

- Admin menu and settings registration (send-whatsapp.php:20-52) and the
  settings page (send-whatsapp.php:78-117): WordPress hooks and HTML, not
  logic.
- `add_shortcode` and the `ABSPATH` guard: host registration only.
- `add_settings_error`: only whether it is raised is modelled, as a flag.
  Its message text and translation (`__`) are not modelled.
- `sanitize_text_field`, the callback of the prefix option
  (send-whatsapp.php:49), is a foreign WordPress helper. The stored prefix is
  taken as given.
- `get_option`, `get_the_ID` and `get_the_title` become fields of `Site`, not
  global state. `wp_strip_all_tags`, `esc_url` and `esc_html` become
  uninterpreted function inputs, so nothing is proved about their internals.
- A `preg_replace` failure (PCRE returning null) and non-string option values
  are not modelled: the inputs are byte strings.
- PCRE `\s` is taken in its default byte mode (no `u` modifier, C locale
  tables): space and the bytes 9 to 13. Locale-dependent whitespace is not
  modelled.
