# Easy Image View: the reaction pipeline in Dafny

Easy Image View is a Slack bot written in Python. A user reacts to a message's
image with the magnifying-glass emoji (`mag`). The bot then looks the message
up and checks that the first attachment is a PNG, JPEG or JFIF image. It
fetches the image and gets a description of it from Azure, posts a
"being processed" notice, recolours the image for the configured colour
blindness and resizes it when asked. Last, it uploads the result into the
message's thread with a caption. Three process-wide settings steer the run:
the coloring, the alt-text toggle and the resize percentage, written by the
settings form.

This project models that decision logic:

- `Wrappers` (wrappers.dfy): the `Option` datatype.
- `Decimal` (decimal.dfy): Python's `str()` of an integer, so the confidence
  text `"87%"` can be built. It also reads back a digit string the way
  `float(setting[:-1])` reads the resize setting.
- `Scaling` (scaling.dfy): the resize arithmetic, `round(dim * p / 100)`
  with Python's round-half-to-even.
- `AppSettings` (settings.dfy): the `SETTINGS` record as a class
  (`SettingsStore`). Its constructor sets the defaults. `Submit`, the form
  submission, overwrites the fields one at a time.
- `Reaction` (reaction.dfy): the `reaction_added` handler.
  - Every collaborator is an abstract input in a `World`, and each one
    succeeds or fails. The collaborators are the history lookup, the
    public-URL call, the fetch-and-describe block, decoding with colour
    correction, resizing, each thread notice and the upload.
  - `HandleReaction` is the handler written step by step. It reads the
    settings from the store and returns the ordered trace (`Step`s) of the
    calls it makes to Slack and to the fetch-and-describe block. Decoding,
    colour correction and resizing are not steps of their own. The trace is
    proved equal to the specification function `ReactionTrace`.
  - Each thread notice is posted with its text, as the handler words it.
  - `Thread` keeps the part of a trace that shows up in the thread: the
    notices whose post went through, and the upload if it succeeded.

Behaviour of the handler worth knowing:

- The description is fetched even when alt text is disabled. It sits in the
  same `try` as the image download, so a failing description is fatal and
  posts the generic error. It does not silently degrade.
- The settings form is not validated. Whatever texts are selected are stored.
  A submission missing a block raises after the earlier fields are already
  written, so an update is not all-or-nothing.
- A failed message lookup, or a message whose `files` list is empty, ends in
  the outer catch-all and posts nothing.
- The resize setting has its last character dropped whatever that character
  is. Only the rest is read as a number.
- A run can leave two thread items, the processing notice and the upload. If
  the upload fails, the notice is left standing with no follow-up.

## Model

| member | source | states |
|---|---|---|
| Decimal.NatToString | app.py:37 | the text of a non-negative int is a non-empty digit string with no leading zero, denoting that int |
| Decimal.IntToString | app.py:37 | the text of any int reads back as that int; it is the canonical digit string, with a minus sign before it for a negative int |
| Decimal.ConfidenceText | app.py:37 | the confidence text ends in `%`, what precedes it reads back as the rounded percentage, and for a non-negative percentage it is exactly that number's text |
| Decimal.CanonicalIsNatToString | app.py:37 | the converse: every digit string without a leading zero is the text of its own value |
| Decimal.ParsePercent | app.py:417 | a resize setting yields a number exactly when it has at least two characters and all but the last are digits, and the number is the value of those digits (leading zeros allowed) |
| Decimal.PercentRoundTrip | app.py:417 | a number's text followed by any one character reads back as that number |
| Decimal.MenuPercents | app.py:273-297 | the menu texts 100%, 125%, 150% and 200% read back as 100, 125, 150 and 200 |
| Scaling.RoundHalfEven | app.py:420-421 | the result is within half of n/d, and on a tie it is the even neighbour (Python's round) |
| Scaling.RoundHalfEvenUnique | app.py:420-421 | no other integer meets that contract, so it defines the rounding completely |
| Scaling.ScaledDim | app.py:420-421 | a scaled side is the integer nearest dim*percent/100, with ties going to the even one |
| Scaling.TargetSize | app.py:417-422 | at 100% the size is unchanged; otherwise each side is independently rounded dim*percent/100 |
| Scaling.ScaleByHundred | app.py:418 | scaling by 100% leaves every side unchanged, so skipping the resize at 100% is a no-op |
| Scaling.ScaleByTwoHundred | app.py:420-421 | 200% doubles each side exactly |
| Scaling.ScaleByHundredFifty | app.py:420-421 | 150% of an even side is exactly 3/2 of it; for an odd side the half rounds to the even neighbour |
| Scaling.ResizeExamples | app.py:417-422 | 150% on 100x200 gives 150x300, 200% gives 200x400, 100% keeps 100x200 |
| AppSettings.SettingsStore.constructor | app.py:41-45 | the settings start as Deuteranopia, Enabled, 100% |
| AppSettings.SettingsStore.Submit | app.py:318-327 | the coloring, alt-text and resize fields are written in that order with the selected texts, unvalidated; a missing block stops the update after the fields before it, and success is reported exactly when all three were written |
| Reaction.Caption | app.py:426-427 | the caption begins with "Here is the converted image! {coloring}-friendly."; it is longer than that exactly when alt text is "Enabled", and then the rest is the alt-text line with description and confidence |
| Reaction.DefaultCaption | app.py:426-427 | under the default settings the caption names Deuteranopia and carries "Alt Text: " with the description and its percentage |
| Reaction.CaptionDeterminesColoring | app.py:426 | without alt text, two equal captions name the same coloring |
| Reaction.FinalSize | app.py:409-423 | an image is ready for upload exactly when decoding succeeded, the percentage was read and, unless it is 100, the resize succeeded with a non-empty target; its size is then the target size |
| Reaction.HandleReaction | app.py:353-444 | the step-by-step handler makes exactly the calls of the specification trace, for the settings held in the store |
| Reaction.OtherReactionsIgnored | app.py:356-357 | a reaction other than `mag` makes no call at all |
| Reaction.LookUpFailureIsSilent | app.py:361-367 | a failed lookup makes only the lookup call and leaves nothing in the thread |
| Reaction.MissingFilesNotice | app.py:437-442 | a message without `files` gets only the no-image notice: no sharing, fetch or upload |
| Reaction.InvalidTypeNotice | app.py:368-376 | a first file that is not PNG, JPEG or JFIF gets only the invalid-file notice: no sharing, fetch, description or upload |
| Reaction.FetchFailureIsFatal | app.py:388-402 | a failing fetch-and-describe block is followed only by the generic error notice: no processing notice and no upload |
| Reaction.PublicUrlFailureSwallowed | app.py:382-386 | the trace is the same whether the public-URL call fails or not |
| Reaction.SuccessPath | app.py:404-435 | on success the calls end with the processing notice and one upload to the same channel and thread; the thread shows both, or only the notice if the upload fails |
| Reaction.TransformFailureStopsAfterNotice | app.py:405-423 | if the processing notice fails to post, or decoding, reading the percentage or resizing fails, the run ends after the processing notice with no upload |
| Reaction.ThreadOutcome | app.py:353-444 | every run leaves at most two things in the thread, all in the event's channel and thread, and two only as the processing notice followed by the upload |
| Reaction.UploadNeedsDescription | app.py:388-402 | whatever the alt-text setting, nothing is uploaded unless the description was obtained |
| Reaction.DeuteranopiaExample | app.py:425-433 | a PNG under the default settings ends with the processing notice and the upload at the decoded size with the default caption |

## Left out

- Slack views (home tab, settings modal) and the demo button upload: static view data and SDK calls with no decision logic.
- Slack SDK calls, the HTTP requests, HTML scraping of the public page and the Azure description call appear only as success or failure inputs of `World`. Their payloads are opaque: file ids, channel and thread strings, and the description text and percentage.
- Decoding, the channel reversal, the colour correction and the pixel resize are foreign pixel code. Only their failure and the decoded image size are modelled.
- Logging, environment variables and client start-up are left out.
- A `mag` reaction whose item carries no `channel` or `ts`, such as a reaction on a file item, raises into the outer catch-all before any call. `Event` always has both fields, so the model always makes the lookup in that case.
- A file entry without `pretty_type` or `id` raises into the outer catch-all, at the type check or before the public-URL call. `FileInfo` always has both fields, so these paths are not modelled.
- Concurrency and the fixed temporary file names shared between runs are left out. Each run is modelled alone, and its settings snapshot does not change during the run.
- `Description.confidencePercent` is the already rounded `round(confidence*100)`. The floating-point product before the rounding is not modelled.
- Decimal.ParsePercent: `float()` also accepts signs, spaces, underscores, decimal points and exponents. The model treats those settings as a failure to read. No menu choice produces one.
- Scaling.ScaledDim: uses the exact rational `dim * p / 100`. This matches the floating-point product only when `p/100` is exact in binary and the product is exact. That holds for the menu's 100, 125, 150 and 200; other percentages may round differently in the source.
- Reaction.FinalSize: two things count as a failure of the resize step: a target side of 0, which the resize call refuses, and the abstract `resizeOk`. Other errors of the image library are left out.
