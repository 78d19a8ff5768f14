# Team Etoiles landing page: the interaction rules, in Dafny

The landing page's script (`js/main.js`) wires browser events to the page.
Inside that wiring are a few rules with exact behaviour. This project models
them, with the DOM replaced by plain values:

- **Form validation** (`Validation`, `ContactForm`). A field is
  `(value, type, required)`. The value is trimmed. A required field must not
  be blank. A non-empty email field must match `^[^\s@]+@[^\s@]+\.[^\s@]+$`.
  The form keeps at most one error message per field, together with the red or
  neutral border.
- **Header and navigation** (`Navigation`). The header is `scrolled` exactly
  when the scroll offset exceeds 100. The `active` link is the one that points
  at the last section whose span `[top, top + height)` holds `scrollY + 200`.
  A click on a navigation link whose target element exists scrolls to that
  target, less the header height, and closes the mobile menu. When the target
  is missing, the click does nothing.
- **Mobile menu** (`Menu`). The panel is either hidden (bars icon) or shown
  (cross icon). The button toggles it. A menu link and the Escape key close it.
  So does a navigation link, but only when its target element exists.
- **Logo carousel** (`Carousel`). The track holds the client list twice. The
  drag state (`isDragging`, `startX`, `currentTransform`) turns pointer
  movement into a track offset. The prev and next buttons move the track by
  one tile (232 px).

The validator is modelled as pure functions. Everything the script changes
step by step is a class: the form's markers, the menu, the navigation bar and
the carousel. Those classes have fields, `modifies` frames and loops where the
script has them.

The regular expression is given its meaning in `MatchesEmailPattern`: three
non-empty runs of characters that are neither white space nor `@`, separated
by a literal `@` and a literal `.`. The check that runs, `IsEmailAddress`,
works character by character. It demands no white space, exactly one `@`, a
non-empty part before the `@`, and a `.` in the domain that is neither its
first nor its last character. Two lemmas prove that the check and the pattern
accept the same strings. `IsSpace` is the one character set that both `trim()`
and `\s` use: ECMAScript white space and line terminators.

Offsets read back from the page come in as parameters: the computed transform
of the carousel track, and the position of a link's target. A transform of
`none` is `None`.

## Model

| member | source | states |
|---|---|---|
| `Validation.Trim` | js/main.js:231 | The trimmed value is the middle part of the input. Everything cut from either end is white space, and the result neither starts nor ends with white space. It is empty exactly when the whole value is white space. |
| `Validation.MatchesEmailPattern` | js/main.js:244 | The reading of `/^[^\s@]+@[^\s@]+\.[^\s@]+$/`: a run of one or more characters that are neither white space nor `@`, then `@`, then another such run, then `.`, then a last such run, anchored at both ends. Its contract draws what the anchors imply: a match is at least five characters long, holds an `@` and a `.`, and starts and ends with such a plain character. |
| `Validation.EmailCheckSound` | js/main.js:244-245 | Every string that the character-level address check accepts matches the address pattern. |
| `Validation.EmailCheckComplete` | js/main.js:244-245 | Every string that matches the address pattern passes the character-level check. |
| `Validation.EmailCheckIsPattern` | js/main.js:243-249 | The character-level address check and the pattern accept exactly the same strings. |
| `Validation.CheckField` | js/main.js:230-249 | A required field whose value is blank is invalid, with the required message. For a non-blank email field: valid iff the trimmed value matches the address pattern, and otherwise invalid with the email message. Any other field is valid. The required message goes only with a blank value and the email message only with a non-blank one, so the two never both apply. |
| `ContactForm.Form.ClearValidationError` | js/main.js:278-288 | The field loses its error message and gets the neutral border back. No other field changes. |
| `ContactForm.Form.UpdateValidationError` | js/main.js:257-276 | An invalid field gets the red border and exactly one message, the given one; any earlier message is replaced, not added to. A valid field is cleared. The red border goes with a message on every field. |
| `ContactForm.Form.ValidateInput` | js/main.js:230-255 | Runs on `blur` (line 174) and from `validateForm`. Returns whether the field passes `CheckField`. Afterwards the field carries a message iff it is invalid, and that message is the verdict's. Other fields are untouched. |
| `ContactForm.Form.ValidateForm` | js/main.js:217-228 | Returns true iff every required field is valid. Its new messages and borders are the required fields' verdicts applied in document order, every one of them, with no stop at the first failure. `ValidatedForm` spells out what that leaves on each field. |
| `ContactForm.ValidatedForm` | js/main.js:217-228 | After the whole form is validated, a required field carries a message and the red border exactly when it is invalid, and the message is its verdict's. A field that is not required keeps the message and border it had. |
| `ContactForm.ErrorsAfterShows` | js/main.js:221-225 | After the first `n` fields are validated in order, each required one among them carries its verdict's message, or none when valid. Every other field keeps its message. |
| `ContactForm.BordersAfterShows` | js/main.js:221-225 | After the first `n` fields are validated in order, a required one among them has the red border exactly when it is invalid. Every other field keeps its border. |
| `ContactForm.ErrorsAfterIdempotent` | js/main.js:217-276 | Validating unchanged values a second time leaves the same messages. A field never gains a second message, since the paragraph is reused and its text replaced. |
| `ContactForm.BordersAfterIdempotent` | js/main.js:217-288 | Validating unchanged values a second time leaves the same borders. |
| `ContactForm.FormChecksAt` | js/main.js:218-225 | Field `j` of the form is skipped when it is not required and checked with `CheckField` when it is. |
| `ContactForm.Form.OnInput` | js/main.js:172-176 | Editing a field stores the new value and clears that field's error marker. |
| `Menu.MobileMenu.Open` | js/main.js:143-150 | Ends with the panel shown and the cross icon, whatever the state before. |
| `Menu.MobileMenu.Close` | js/main.js:152-159 | Ends with the panel hidden and the bars icon, whatever the state before. Closing a closed menu changes nothing. |
| `Menu.MobileMenu.ButtonClick` | js/main.js:124-132 | The button flips the menu between open and closed. The icon flips with it. |
| `Menu.MobileMenu.LinkClick` | js/main.js:135-140 | A click on a link in the drawer leaves the menu closed. |
| `Menu.MobileMenu.KeyDown` | js/main.js:401-405 | Escape leaves the menu closed. Any other key leaves it unchanged. |
| `Navigation.LastHit` | js/main.js:102-115 | Gives the index of the last section in document order whose half-open span holds the position. It gives none exactly when no section holds it. |
| `Navigation.NavBar.UpdateActiveNavLink` | js/main.js:97-116 | If no section holds `scrollY + 200`, the marks are unchanged. Otherwise a link is active iff its href is `#` plus the id of the last section that holds the position. With distinct hrefs, at most one link is active afterwards when some section holds the position, or when at most one link was active before. |
| `Navigation.NavBar.OnScroll` | js/main.js:57-71 | The header is `scrolled` iff the offset exceeds 100, in either direction of scrolling. The active link is then updated as above. |
| `Navigation.NavBar.LinkClick` | js/main.js:74-93 | If the target exists, the page scrolls to the target's offset minus the header height and the mobile menu ends closed. If it does not, nothing changes. |
| `Carousel.Doubled` | js/main.js:578-590 | The track holds `2n` tiles. Tiles `i` and `i + n` both show logo `i`. |
| `Carousel.LogoCarousel.GenerateLogoTrack` | js/main.js:578-590 | Appends every logo, then every logo again, to the track. |
| `Carousel.LogoCarousel.constructor` | js/main.js:505-608 | At setup the track is the seven client logos doubled (14 tiles), and nothing is paused or dragged. |
| `Carousel.LogoCarousel.PauseAnimation` | js/main.js:595-598 | Marks the user as interacting and pauses the track (also on mouseenter, line 678). |
| `Carousel.LogoCarousel.ResumeAnimation` | js/main.js:600-603 | Clears the interaction flag and the pause. |
| `Carousel.LogoCarousel.StartDrag` | js/main.js:610-625 | Starts a drag at the pointer and pauses. The baseline becomes the rendered offset; when the computed transform is `none`, the previous baseline is kept. The track is pinned at the baseline with its animation off. |
| `Carousel.LogoCarousel.UpdateDrag` | js/main.js:627-634 | While dragging, the offset is `currentTransform - (startX - clientX)`, so the track moves exactly as far as the pointer. When not dragging, nothing changes. |
| `Carousel.LogoCarousel.EndDrag` | js/main.js:636-647 | Clears `isDragging`. When a drag was in progress it also restores the animation and drops the pause class. When none was, nothing changes. |
| `Carousel.LogoCarousel.MouseLeave` | js/main.js:679-683 | Resumes the animation unless a drag is in progress. |
| `Carousel.LogoCarousel.PrevClick` | js/main.js:686-708 | Pauses and moves the track to the rendered offset plus 232. A `none` transform reads as 0. |
| `Carousel.LogoCarousel.NextClick` | js/main.js:710-732 | Pauses and moves the track to the rendered offset minus 232. A `none` transform reads as 0. |
| `Carousel.LogoCarousel.AfterJump` | js/main.js:703-706 | The button's delayed callback restores the animation and resumes it. |

## Left out

- Scroll-reveal and section observers with staggered delays (`setupScrollAnimations`, `setupIntersectionObserver`): they are browser observer callbacks and timers, and they compute no result.
- The simulated submission (`handleFormSubmission`): its busy label, its two timeouts, the form reset, the success banner and its console log are all timer-driven side effects. Only its call to `validateForm` is modelled.
- Timer scheduling in general. The drag-release grace timer and the 500 ms button timer are modelled only by what their callbacks do (`ResumeAnimation`, `AfterJump`), not by when they run. The one-second dot sampler `updateDots` is left out: it works in floating point on a transform read back through `DOMMatrix`.
- Parallax, `smoothScrollTo` easing, `getScrollProgress` and `isElementInViewport`: floating-point arithmetic over layout values.
- `debounce`, `throttle`, lazy image loading, the `animationend` handler, the global error handler, the `aria-expanded` toggle, the Enter-key click forwarding and the localhost debug object: each is timer scheduling or a thin DOM or console wrapper.
- `createLogoItem`'s markup: a rendered tile is modelled by the logo record it shows.
- The early return in `setupLogoScroll` when the container or track is missing, and the absence of the prev or next button: the model assumes the page has these elements.
- Offsets, scroll positions and pointer coordinates are whole numbers here. In the browser they can be fractional.
- Each field is assumed to sit in its own form group (`input.closest('div')`). Two fields that shared a group would share one error paragraph, and the model does not capture that.
- The text of the form's busy label and the `console.log` messages.
- Which link is active when the page loads, and the other initial classes, come from the HTML page, which is not part of this model. The `NavBar` constructor takes the initial marks as a parameter. The menu starts hidden with the bars icon.
- `Navigation.NavBar.UpdateActiveNavLink`: "at most one active link" is proved only for links with distinct hrefs, and only when some section holds the position or at most one link was active before. When no section holds it the marks are left as they were, so two links that were both active stay active. Two links with the same href are both marked, exactly as the script marks them.
- `Navigation.NavBar.LinkClick`: only browsers that support CSS `scroll-behavior` are modelled. In other browsers `setupSmoothScrolling` (js/main.js:351-368) adds a second click listener to every `a[href^="#"]` link, navigation links included. That listener runs after the navigation handler and animates the scroll to the target's `offsetTop` with no header offset, so the page ends there and not at `offsetTop - headerHeight`. The fallback listener is not part of this model.
