# Well Trust Home Care page logic, modelled in Dafny

`script.js` drives the Well Trust Home Care landing page. Most of it is DOM and
event wiring. Inside its handlers are a few small rules, and this project
states and proves those rules exactly. The DOM, timers and the network become
plain values passed in and out.

- **JsText**: the pieces of JavaScript the handlers rely on.
  - the regular-expression class `\s`;
  - the global `parseInt` with no radix (leading whitespace, a sign, the
    `0x` prefix, then the longest digit run; NaN is `None`);
  - the string form of an integral Number;
  - `replace(/[0-9]/g, '')`.
- **ContactForm**: the submit handler of `#contact-form` and `showFormMessage`.
  - The required-field check and the email regular expression
    `/^[^\s@]+@[^\s@]+\.[^\s@]+$/`. The regex is read literally as a ghost
    predicate and proved equivalent to a computed check.
  - A `Form` class whose fields are the form's values, the submit button's
    `disabled` flag and label, the `.form-message` elements and the requests sent.
- **ActiveNav**: the anonymous scroll listener.
  - a `for` loop scans the sections and is proved to pick the last one whose
    shifted range contains the offset;
  - a second loop over an array of links marks exactly the matching links active (several links may share an href).
- **NavbarScroll**: the `scrolled` class of `#navbar`.
- **MobileMenu**: the menu button, the link list and the body's overflow, as a
  class with one method per listener.
- **CallButton**: when the floating call button hides.
- **SmoothScroll**: the offset an in-page anchor click scrolls to.
- **Counters**: `animateCounters`. The interval loop of one counter is proved to
  pin the text to `parseInt(text)` followed by the text with its digits removed,
  and to pin on the first tick for an end value of 0 or below, on the fiftieth
  otherwise. "500+" ends as "500+"; "24/7" ends as "24/".

Some behaviours of `script.js` are easy to misread, and the model keeps them as written:
- **Navbar threshold.** The test `currentScroll > 50` is strict, so at exactly
  50 the `scrolled` class is removed.
- **Anchor clicks.** `preventDefault()` runs before the bare-`#` test and the
  missing-target test, so the browser's default jump is always suppressed.
- **Reset.** `form.reset()` restores each control's default value, which is not
  necessarily empty; the model keeps those defaults in `Form.defaults`.
- **Request URL.** The `action` property of a form is the resolved action URL,
  and a browser reports the document's own URL when the attribute is missing or
  empty. In a browser, `form.action || '/'` therefore never falls back to `/`,
  and the request goes to the page's own URL. `RequestUrl` still models the `/`
  branch as written.

## Model

| member | source | states |
|---|---|---|
| JsText.IsJsWhitespace | script.js:166 | the characters `\s` matches (ECMAScript WhiteSpace and LineTerminator), which are also the ones parseInt skips at script.js:291 |
| JsText.TrimStart | script.js:291 | parseInt's first step removes exactly the leading run of `\s` characters and keeps the rest as a suffix |
| JsText.DigitPrefix | script.js:295 | the digit scan returns a prefix made only of radix digits and stops at the first non-digit |
| JsText.NatToString | script.js:305 | the string form of a non-negative integer is a non-empty run of decimal digits whose first digit is 0 only in "0" itself |
| JsText.NatToStringValue | script.js:305 | the digits the string form writes denote the number again |
| JsText.StripDigits | script.js:296 | `replace(/[0-9]/g, '')` leaves no digit, never lengthens the text, and leaves a digit-free text unchanged |
| JsText.StripDigitsAppend | script.js:296 | removing digits distributes over concatenation, so the kept characters stay in order |
| JsText.DigitsValue | script.js:295 | the number a run of radix digits denotes, most significant digit first |
| JsText.ReadDigits | script.js:295 | the digit step reads a number exactly when the text starts with a digit of the radix, and NaN otherwise |
| JsText.ParseUnsigned | script.js:295 | a `0x`/`0X` prefix switches to radix 16 and the text parses exactly when a hexadecimal digit follows it; otherwise it parses exactly when it starts with a decimal digit |
| JsText.ParseSigned | script.js:295 | a leading `-` gives a result of 0 or below, any other start a result of 0 or above, and empty text gives NaN |
| JsText.ParseInt | script.js:291-295 | parseInt with no radix; text made only of whitespace, the empty text included, gives NaN |
| JsText.TrimStartSkips | script.js:291 | any run of whitespace put in front of a text is removed along with the text's own |
| JsText.ParseIntSkipsWhitespace | script.js:291-295 | parseInt gives the same result with or without leading whitespace |
| JsText.IntToString | script.js:305 | the string form of an integer starts with `-` exactly when it is negative, and every other character is a decimal digit |
| JsText.DigitPrefixOfRun | script.js:295 | the digit scan stops exactly where a run of digits ends |
| JsText.ParseUnsignedDecimal | script.js:295 | after the sign, decimal digits that are not a `0x` prefix read as their value |
| JsText.ParseIntUnsigned | script.js:295 | text that starts with neither whitespace nor a sign is read by the unsigned step alone |
| JsText.ParseIntMinus | script.js:295 | text that starts with `-` parses to the negation of what follows |
| JsText.ParseIntLeadingDecimal | script.js:291-295 | text that begins with decimal digits parses to their value, unless they are a lone 0 followed by x |
| JsText.ParseIntOfNegative | script.js:295 | `-` followed by the digits of a positive m parses to -m whatever non-digit text follows |
| JsText.ParseIntOfNonNegative | script.js:295 | the digits of m parse to m whatever non-digit text follows, except "0" followed by x |
| JsText.ParseIntOfIntToString | script.js:295-305 | parseInt reads back the integer the string form writes, so the pinned counter keeps its value |
| ContactForm.MatchesEmailPattern | script.js:166-167 | the regular expression read literally: some `@` and some later `.` split the text into three non-empty runs of `[^\s@]` |
| ContactForm.IsValidEmail | script.js:166-167 | the computed check: no whitespace, a first `@` with text before it, no later `@`, and a `.` inside the rest that is neither its first nor its last character |
| ContactForm.IndexOf | script.js:166 | the index of the first occurrence of a character, or the length when it is absent |
| ContactForm.IndexOfFirst | script.js:166 | an occurrence with none before it is the one IndexOf finds |
| ContactForm.EmailCheckSound | script.js:166-167 | every address the computed check accepts matches the regular expression |
| ContactForm.SplitCharacters | script.js:166 | in a split that matches the regular expression, only the `@` is outside `[^\s@]` |
| ContactForm.OnlyAt | script.js:166 | such an address has no whitespace and no second `@` |
| ContactForm.SplitPassesCheck | script.js:166-167 | any split the regular expression can make passes the computed check |
| ContactForm.EmailCheckComplete | script.js:166-167 | every address the regular expression matches passes the computed check |
| ContactForm.EmailCheckMatchesPattern | script.js:166-170 | the computed check accepts exactly the strings the regular expression matches |
| ContactForm.EmailExamples | script.js:166-167 | "a@b.co" is accepted and "not-an-email" is rejected |
| ContactForm.IsFilled | script.js:160 | JavaScript truthiness of a form value: a missing entry and the empty string fail, any other string, blanks included, passes |
| ContactForm.Validate | script.js:159-170 | the required-field error comes exactly when one of the four fields is missing or empty; otherwise the email error comes exactly when the regular expression rejects the email |
| ContactForm.RequestUrl | script.js:178 | the request goes to the form's action, or to `/` when the action is empty |
| ContactForm.RejectionText | script.js:160-169 | a missing field and an invalid email each show their own error text |
| ContactForm.SubmissionReport | script.js:159-195 | a request is sent exactly when validation accepts; the fields are reset and the message is a success exactly when it is sent and the fetch succeeds; each rejection shows its own error, a success shows the thank-you text, and a failed request always shows the same error |
| ContactForm.FailuresLookAlike | script.js:183-191 | a non-ok response and a rejected fetch end the same way |
| ContactForm.Form.Valid | script.js:172-195 | at most one message is shown, and the button is disabled, labelled "Sending...", exactly while a request is awaited |
| ContactForm.Form.constructor | script.js:145-153 | the form starts with its default values, an enabled button, no message and no request |
| ContactForm.Form.ShowMessage | script.js:202-227 | afterwards the form holds exactly one message, the new one, and the earlier one is gone |
| ContactForm.Form.BeginSubmit | script.js:149-181 | a rejected submission shows its error and leaves the button and the requests alone; an accepted one disables the button, labels it "Sending...", remembers the old label and sends one request with the form's data |
| ContactForm.Form.CompleteSubmit | script.js:183-195 | after the fetch, the button is enabled under its original label; only an ok outcome shows the success message and resets the fields |
| ContactForm.Form.Submit | script.js:149-196 | for every fetch outcome the button ends enabled under its original label, and the message, fields and requests are those of the submission report |
| ActiveNav.NavbarHeight | script.js:246 | the navbar height is the navbar's offsetHeight, or 80 when there is no navbar or its height is 0 |
| ActiveNav.Spans | script.js:249-252 | a section's range starts the navbar height plus 100 above its top and is as tall as the section |
| ActiveNav.ActiveSectionId | script.js:245-255 | the id the scan settles on, defined from the end of the list |
| ActiveNav.ActiveSectionIdIsLastSpanning | script.js:245-255 | the active id is "" when no section's shifted range contains the offset, else the id of the last section that does |
| ActiveNav.ScanActiveSection | script.js:245-255 | the sequential scan ends with the active id |
| ActiveNav.IsActiveHref | script.js:259 | a link is active when its href is `#` followed by the current id |
| ActiveNav.MarkActiveLinks | script.js:257-262 | every link keeps its href and is active exactly when its href is `#` followed by the current id |
| ActiveNav.OnScroll | script.js:241-263 | after a scroll event, exactly the links pointing at the active section are active |
| ActiveNav.NoSpanningSectionLeavesBareHash | script.js:257-262 | when no section contains the offset, only a link whose href is exactly `#` can be active |
| NavbarScroll.IsScrolled | script.js:28 | the offset is strictly above 50 |
| NavbarScroll.Navbar.constructor | script.js:20-22 | the navbar starts without the class and with `lastScroll` 0 |
| NavbarScroll.Navbar.OnScroll | script.js:24-35 | the navbar is `scrolled` exactly when the offset is strictly above 50, whatever it was before, so a repeated event changes nothing |
| MobileMenu.Menu.Valid | script.js:47-69 | button and list carry `active` together, and the body's overflow is `hidden` exactly while the menu is open |
| MobileMenu.Menu.constructor | script.js:41-45 | the menu starts closed, consistent, with the body unlocked |
| MobileMenu.Menu.ToggleClicked | script.js:47-51 | the button flips both classes, and the body is locked exactly when the list is active |
| MobileMenu.Menu.Close | script.js:54-60 | a link click closes the menu and unlocks the body |
| MobileMenu.Menu.DocumentClicked | script.js:63-69 | an outside click closes the menu; a click inside the button or the list leaves it alone |
| MobileMenu.Menu.Click | script.js:47-69 | every click keeps button, list and body in agreement; a button click flips the menu, a link click or an outside click closes it, and any other click inside the list leaves it alone |
| CallButton.FooterTop | script.js:341 | the footer's top edge, or Infinity when there is no footer |
| CallButton.ShouldHide | script.js:345 | the contact section's top is more than 100 px above the viewport's bottom edge, or the footer's top is above that edge |
| CallButton.FloatingCallButton.constructor | script.js:339-360 | the load-time call already sets the button's state from the page geometry |
| CallButton.FloatingCallButton.OnScroll | script.js:339-354 | the button hides exactly when the contact section is more than 100 px above the viewport's bottom edge or a footer is above that edge |
| CallButton.MissingFooterIsFarFooter | script.js:341 | a missing footer acts like a footer still below the viewport |
| SmoothScroll.OnAnchorClick | script.js:76-93 | the default jump is always suppressed; a scroll happens exactly when the href is not a bare `#`, the target exists and the navbar exists, and then lands the target 20 px below the navbar |
| Counters.PinnedText | script.js:290-305 | a text without a leading integer is left as it is |
| Counters.Accumulated | script.js:297-303 | the running sum after a number of ticks, each adding one fiftieth of the end value |
| Counters.ReachedAt | script.js:298-304 | within 50 ticks the sum first reaches the end value on tick 1 when the end value is 0 or below, and on tick 50 otherwise |
| Counters.RunInterval | script.js:297-310 | the interval stops with the text pinned to the end value followed by the suffix, after 1 tick for an end value of 0 or below and 50 otherwise |
| Counters.AnimateCounter | script.js:289-311 | a counter without a leading integer is never animated; any other ends showing its pinned text |
| Counters.StripDigitsOfDigits | script.js:296 | a run of digits has nothing left after the digits are removed |
| Counters.PinnedTextRoundTrip | script.js:290-305 | the pinned text parses back to the same end value, and once its digits are removed it reads as the non-digits of the end value's string form (a `-` for a negative value) followed by the original suffix |
| Counters.PinningIsIdempotent | script.js:290-305 | for an end value of 0 or more, pinning an already pinned text changes nothing |
| Counters.PinnedDecimalText | script.js:290-305 | a text that starts with a number without leading zeros keeps that number and loses the digits of the rest |
| Counters.PinnedFiveHundredPlus | script.js:290-305 | "500+" ends as "500+" |
| Counters.PinnedTwentyFourSeven | script.js:290-305 | "24/7" ends as "24/", because the 7 is a digit and leaves the suffix |

## Left out

- Event-listener registration, `querySelector*` lookups and the DOM tree. Elements are records and flags, and the early returns when `#contact-form`, `#mobile-menu-btn`, `#nav-links`, `.mobile-call-btn` or `#contact` is missing are not modelled.
- The `fetch` call. It is an abstract outcome (`Ok`, `NotOk`, `Throws`) passed in; the request body is the collected field map, not multipart encoding.
- ContactForm.Form.BeginSubmit: a second submission while a request is pending is excluded by its precondition. The disabled button blocks a second submission through the page; a submit event raised by other script code is not modelled.
- Timers: the message's 5000 ms dwell and 300 ms fade, the service pre-selection delays of 800 ms and 1500 ms, and the 30 ms spacing of the counter ticks.
- The IntersectionObserver callbacks for the reveal animation and for starting the counters, and the stagger delay `index * 0.1`. These are browser viewport behaviour.
- The hero parallax `scrolled * 0.1` and all inline CSS strings, transitions and animations.
- `initServiceLinks` (service pre-selection) and `initScrollReveal` are not part of this model.
- Counters.RunInterval: the sum uses exact rational arithmetic. With IEEE doubles, fifty additions of endValue / 50 often round to just below endValue, and the counter then pins on tick 51: end values 10, 20 and 98 pin on tick 51, while 24, 100 and 500 pin on tick 50. The tick count RunInterval states holds under exact arithmetic only. The intermediate `Math.floor(current)` texts are computed but not specified.
- JsText.NatToString: models the string form of integers only. Values of 10^21 and above print in exponent form in JavaScript, and integers above 2^53 are rounded by parseInt; neither is modelled.
- Scroll offsets, element tops and heights are integers. Fractional pixel values are not modelled.
- SmoothScroll.OnAnchorClick: when `#navbar` is missing the handler throws after `preventDefault()`. The model returns no scroll, and the thrown error is not modelled. `querySelector` with an href that is not a valid selector also throws; it is treated like a missing target. Clamping of `scrollTo` to the page is not modelled.
- NavbarScroll: `initNavbar` throws on the first scroll when `#navbar` is missing. The model assumes the element exists.
- Counters.PinnedTextRoundTrip and Counters.PinningIsIdempotent exclude an end value of 0 whose suffix starts with `x` or `X`, whether the 0 was read as hexadecimal ("0x0") or decimal ("00x"). Such a text pins as "0x…", which parseInt reads as NaN or, when hexadecimal letters follow ("00xa" pins as "0xa", read as 10), as a different number.
- ContactForm.Form: `action` stands for the value of the form's `action` property. A browser never leaves that value empty, so the `/` branch of RequestUrl is never taken in a browser.
