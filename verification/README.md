# Alza Motor page logic, in Dafny

This project models the parts of the Alza Motor landing page script
(`js/app.js`) that hold state or decide something. The rest of the script is
rendering and decorative animation.

- **The installation walkthrough** (`setupInstallationDiagram`). It is a
  five-step sequence with a caption, a "previous" and a "next" button, and a
  diagram of five parts: sensor, spacer, wrench, exhaust and converter.
  - Every step first disables both buttons and creates its timeline. It then
    snaps the diagram to that step's entry pose and adds the step's
    animations to the timeline.
  - The timeline's completion callback re-enables the buttons that make sense
    for the step.
  - `poses.dfy` holds the entry poses and the final keyframes of each
    timeline, as data over integer transforms (translate x, translate y,
    rotation in degrees). Opacity is in hundredths.
  - `sequencer.dfy` holds the walkthrough as a class. It has one method per
    event: set-up, a "next" click, a "previous" click, and completion of the
    running timeline.
- **The product selector** (`setupProductSelector`). It covers:
  - the four-product catalogue in its insertion order (`catalog.dfy`);
  - the product name as cleaned for the contact message: tags become spaces,
    white-space runs collapse and the ends are trimmed (`product_name.dfy`);
  - the selector itself (`selector.dfy`): the selected position, the
    buttons' `active` flags, the details panel and the autoplay, changed by
    autoplay ticks and button clicks.
- **The scroll spy** (`setupScrollSpy`). In each batch of intersection
  reports, the last intersecting section wins. A navigation link is then
  active exactly when its `href` without the leading `#` is that section's id.
  A batch with nothing intersecting changes nothing (`scroll_spy.dfy`).

Events reach the model as method calls:

- Clicks and timeline completions are methods of the walkthrough class.
- Autoplay ticks and button clicks are methods of the selector class.
- Intersection reports are a parameter.

The animation engine's pending timeline is a `running` flag. `Complete`
clears it by writing the timeline's last keyframes.

A `querySelector` that finds no button makes the page throw a `TypeError`.
That happens after the buttons were cleared. The model returns `ok == false`
in that case and leaves the remaining state as it was at that point.

One consequence of the pose table is stated by `Poses.ForwardHandover`. Step 2
ends with the sensor turned by -180 degrees, and step 3's entry pose snaps it
back to 0. It is the only movement of a visible part at a forward handover.
The opacities that snap at a handover are the converter's (40 to 100 every
time), the exhaust's after step 0 and the sensor's after step 2 (40 to 100).

## Model

| member | source | states |
|---|---|---|
| Poses.EntryPose | js/app.js:512-562 | In every entry pose the sensor, exhaust and converter are fully opaque. The spacer is hidden in steps 0-2 and shown in steps 3-4. The wrench is left untouched exactly in steps 3 and 4. The sensor's transform is always set; the exhaust's and converter's never are. |
| Poses.FinalKeys | js/app.js:519-561 | The last keyframes of each forward timeline. Every step but the last leaves the converter dimmed to 0.4, and the last restores it. Only step 1 touches the wrench, and it leaves the wrench hidden. The sensor is moved in steps 1 and 3 only, and the spacer is faded in by steps 2 and 4. |
| Poses.ApplyEstablishes | js/app.js:514-517 | After a pose is written, every property it sets has the value it gives, whatever the diagram showed before. |
| Poses.ApplySatisfiedIsIdentity | js/app.js:512-562 | Writing a pose that the diagram already shows changes nothing. |
| Poses.ApplyIdempotent | js/app.js:511-563 | Snapping to the same entry pose twice gives the same diagram as snapping once. |
| Poses.ApplyFrame | js/app.js:546-549 | A property a pose does not set keeps its previous value (e.g. the wrench in steps 3 and 4). |
| Poses.ApplyMerge | js/app.js:519-520 | Writing one pose and then another equals writing their merge, where the later value of each property wins. |
| Poses.SatisfiesAfterApply | js/app.js:505-508 | A diagram in a step's entry pose is, once the timeline's last keyframes are written, in the merge of the two. This is the step's settled pose. |
| Poses.EntryPoseIgnoresHistory | js/app.js:511-563 | The entry pose depends on the target step only. From any two earlier diagrams, snapping to step `s` gives the same sensor, the same spacer from step 2 on, and the same wrench in step 1. All opacities agree except the wrench's in steps 3-4. |
| Poses.ForwardContinuity | js/app.js:532-556 | Step 1 leaves the sensor at (450,30) rotated -180, where step 2 places it. Step 2 leaves the spacer shown at (385,60), where step 3 places it. Step 3 leaves the sensor at (385,60) rotated 180, where step 4 places it. |
| Poses.ForwardHandover | js/app.js:513-562 | At each forward handover, no visible part moves except the sensor between steps 2 and 3, whose rotation goes from -180 to 0. The opacities that change are exactly the converter's, the exhaust's after step 0 and the sensor's after step 2. |
| Sequencer.Walkthrough.constructor | js/app.js:586 | Initialisation shows step 0. It starts that step's timeline with both buttons disabled, and the diagram is in step 0's entry pose. |
| Sequencer.Walkthrough.Setup | js/app.js:483-494 | Nothing is set up exactly when one of the eight required elements is missing. Otherwise the walkthrough starts at step 0 with its timeline running, and the diagram is in step 0's entry pose. |
| Sequencer.Walkthrough.UpdateStep | js/app.js:566-570 | The caption becomes the step's text and both buttons are disabled. The diagram is snapped to the step's entry pose and the timeline starts. The step does not change. |
| Sequencer.Walkthrough.ClickNext | js/app.js:572-577 | A click on a disabled "next" changes nothing, including every click while a timeline runs. An honoured click happens only when no timeline runs. It advances exactly one step, snaps to the new entry pose and disables both buttons. The step stays in 0..4. |
| Sequencer.Walkthrough.ClickPrev | js/app.js:579-584 | As for "next", going back exactly one step. |
| Sequencer.Walkthrough.Complete | js/app.js:496-508 | On completion, "previous" is disabled exactly at step 0 and "next" exactly at step 4. The diagram gets the timeline's last keyframes and is in the step's settled pose. Step and caption are unchanged. |
| Sequencer.WalkToEnd | js/app.js:572-586 | Walking forward through all steps, waiting for each timeline, ends at step 4. There "next" is disabled, "previous" is enabled and the diagram is in step 4's settled pose. |
| Sequencer.BackAndForth | js/app.js:572-584 | From a settled step 2, two "previous" clicks in a row leave step 1 (`back == 1`): the second falls in the running timeline and is ignored. After completion, the first of two "next" clicks reaches step 2 (`forth == 2`) and the second is ignored, so the walk ends at step 2 with its timeline running and the diagram in step 2's entry pose. The wrench stays hidden at (385,45) rotated -50, where step 1's timeline left it, because step 2's entry pose sets only its opacity (js/app.js:539). |
| ProductName.StripTags | js/app.js:231 | `replace(/<[^>]*>/g, ' ')`: a `<` with a later `>` starts a tag ending at the first such `>`, which becomes one space; a `<` without a later `>` is kept. Stripping never lengthens the text. Its shape is stated by `StripTagsTagFree`. |
| ProductName.Collapse | js/app.js:231 | `replace(/\s+/g, ' ')`: each maximal white-space run becomes one space. Collapsing never lengthens the text. Its shape is stated by `CollapseShape`. |
| ProductName.Trim | js/app.js:231 | `trim()`: white space removed at both ends. Trimming never lengthens the text. Its shape is stated by `TrimShape`. |
| ProductName.Clean | js/app.js:231 | The whole `replace`/`replace`/`trim` chain that gives the name used in the message. Cleaning never lengthens the name. Its shape is stated by `CleanShape`. |
| ProductName.CloseIndexFirst | js/app.js:231 | The `[^>]*>` part of the tag pattern ends at the first `>`. It finds none only when there is no `>` at all. |
| ProductName.StripTagsTagFree | js/app.js:231 | After every tag is replaced by a space, no `<` is followed by a `>`. No character but spaces is introduced. |
| ProductName.DropSpacesShape | js/app.js:231 | The leading white space is dropped: the result is a suffix that does not start with white space, and everything dropped is white space. |
| ProductName.DropTrailingSpacesShape | js/app.js:231 | The trailing white space is dropped: the result is a prefix that does not end with white space, and everything dropped is white space. |
| ProductName.CollapseShape | js/app.js:231 | After collapsing white-space runs, no two neighbouring characters are white space. The result is empty only for empty input, and starts and ends with white space exactly when the input does. |
| ProductName.TrimShape | js/app.js:231 | The trimmed text is a middle slice of its input, with white space neither at its start nor its end. Only white space is removed around it. |
| ProductName.CollapseTagFree | js/app.js:231 | Collapsing keeps a tag-free text tag-free and introduces no character but spaces. |
| ProductName.CleanShape | js/app.js:231 | A cleaned name has no white space at either end, no two white-space characters in a row, and no tag left. |
| Catalog.IdAt | js/app.js:243-245 | Positions 0-3 select a catalogue id. Any later position selects an id (`undefined`) that is not in the catalogue. |
| Catalog.ProductIdsAreKeys | js/app.js:205 | The id list holds exactly the catalogue's keys, each once. |
| Catalog.Message | js/app.js:232 | The contact message: the greeting, the cleaned name, the price in brackets and the closing sentence. The four texts it gives for the catalogue are stated by `MeshMessage` to `AngularMessage`. |
| Catalog.MeshMessage | js/app.js:232 | The "mesh" product's message names "Alza con Malla" at price L.300. |
| Catalog.FilterMessage | js/app.js:232 | The "filter" product's message names "Alza Recto con Filtro" at price L.500. |
| Catalog.LFilterMessage | js/app.js:232 | The "l-filter" product's message names "Alza tipo L con Filtro" at price L.600. |
| Catalog.AngularMessage | js/app.js:232 | The "45-degree" product's message names "Alza Angular 45 Grados con Filtro" at price L.600. |
| Catalog.StripStyled | js/app.js:231 | Stripping a catalogue-style name keeps both halves and leaves one space for each of its three tags. |
| ProductName.CollapseInterleave | js/app.js:231 | Words separated by white-space runs collapse to the words, each followed by one space. |
| Catalog.CleanStyled | js/app.js:231 | The cleaned catalogue-style name is the words of its two halves joined by single spaces. |
| Catalog.MeshName | js/app.js:145 | The "mesh" product appears in the message as "Alza con Malla". |
| Catalog.FilterName | js/app.js:158 | The "filter" product appears as "Alza Recto con Filtro". |
| Catalog.LFilterName | js/app.js:170 | The "l-filter" product appears as "Alza tipo L con Filtro". |
| Catalog.AngularName | js/app.js:182 | The "45-degree" product appears as "Alza Angular 45 Grados con Filtro". |
| ProductSelector.DetailsOf | js/app.js:226-233 | What the details panel shows for a product: its image, its name as the title, its price and its contact message. The selector's methods state which product's details are shown. |
| ProductSelector.NextIndex | js/app.js:260 | An autoplay tick moves to the next position, from the last back to the first, and always lands on a valid position. |
| ProductSelector.TicksCycle | js/app.js:259-262 | `n` ticks from a valid position move it `n` places round the list of four. |
| ProductSelector.FourTicks | js/app.js:259-262 | Four ticks return to the starting position. |
| ProductSelector.MarksAtMostOne | js/app.js:249-250 | After a selection, at most one button is active. |
| ProductSelector.MarksUnique | js/app.js:249-250 | The active flags after a selection depend only on the buttons and the selected id. |
| ProductSelector.MarksDistinct | js/app.js:249-250 | When no two buttons carry the same product id, the active button is exactly the one carrying the selected id. |
| ProductSelector.FindButton | js/app.js:250 | The lookup finds the first button carrying the id. It finds nothing exactly when no button carries it. |
| ProductSelector.Selector.constructor | js/app.js:286-287 | Start-up selects position 0 and shows the first product. The autoplay starts only when that selection found its button. |
| ProductSelector.Selector.Setup | js/app.js:203 | Nothing is set up exactly when the image, the details container or the progress bar is missing, or there are no buttons. Otherwise position 0 is selected and the first product's details are shown. |
| ProductSelector.Selector.SelectProduct | js/app.js:243-250 | Selection records the position and clears every button. It activates the first button carrying the position's id and fails exactly when there is none. The details show that product, and stay as they were when the id is not in the catalogue. |
| ProductSelector.Selector.Tick | js/app.js:259-262 | A tick selects the next position and keeps the autoplay running, even when the selection fails. The position stays in 0..3. |
| ProductSelector.Selector.Click | js/app.js:279-284 | A click on button `b` stops the autoplay and then selects position `b`. |
| ProductSelector.AutoplayRound | js/app.js:259-262 | Four ticks with no click in between bring back the same position, active flags and details. |
| ScrollSpy.Visible | js/app.js:449 | `entries.filter(entry => entry.isIntersecting)`, in report order. What it keeps is stated by `VisibleKeeps`. |
| ScrollSpy.ActiveId | js/app.js:451-453 | The id of the last intersecting report, or none. Which report that is is stated by `ActiveIdIsLast`. |
| ScrollSpy.VisibleKeeps | js/app.js:449 | The filtered reports are exactly the intersecting ones. |
| ScrollSpy.ActiveIdIsLast | js/app.js:449-453 | There is no section to highlight exactly when no report intersects. Otherwise it is the section of the last intersecting report. |
| ScrollSpy.LinkId | js/app.js:456 | A link's target is its `href` without the first character, and empty for an empty `href`. |
| ScrollSpy.Highlight | js/app.js:448-463 | With nothing intersecting, every link keeps its flag. Otherwise a link is active exactly when its target is the section to highlight. |
| ScrollSpy.AtMostOneActive | js/app.js:455-462 | When the links point at different sections, at most one is active after an update. |

## Left out

- The three.js scene (`Scene3D`) is not modelled. It is rendering, model loading and a floating-point animation loop.
- Timeline durations, easing, staggering and intermediate keyframes are not modelled. The opacity 0.4 dims are kept as final values; the scale pulse and glow filter are not. A running timeline is only the `running` flag, and only its last keyframes are written, at completion.
- `Sequencer.Walkthrough.Complete`: it does not model the effect of the previous timeline still running when the next step starts. Clicks are blocked while one runs, so completion is modelled as happening before the next honoured click.
- How the engine combines a `transform` attribute string with separate translate and rotate properties is not modelled. Both are taken as writing one (translate x, translate y, rotation) triple. A transform string without a rotation counts as rotation 0.
- The caption's and the details panel's fade-ins are not modelled; they are cosmetic. The details panel is updated at once, where the page does so in the first fade's completion callback.
- The progress bar animation and its restart on every selection are not modelled, nor the show/hide of its container. The page's other decorative set-ups (spotlight, hero, scroll reveal, hover, Atropos, gradient) are not modelled either.
- `ProductSelector.Selector.Tick`: timers are discrete ticks. The 6000 ms period and `clearInterval` are represented only by the `autoplay` flag, and a tick can only happen while it is set.
- The product descriptions (HTML lists) are not modelled; they are only copied into the page.
- The contact message is modelled before `encodeURIComponent` and without the base URL. Percent-encoding is defined by ECMAScript, not by this script.
- White space for the `\s` pattern and `trim` is the ASCII set: space, tab, line feed, carriage return, vertical tab and form feed. Unicode spaces are not modelled.
- The tag pattern is modelled literally: a `<` with no later `>` survives. It is not a general HTML stripper.
- `ProductSelector.Selector.Setup`: the title, link, price, description (`product-description-content`, js/app.js:229) and progress container elements are assumed present. The page does not check them. Without one of the first four, the fade's completion callback throws before the message and link are written; the model always shows the full details.
- The model does not follow an exception thrown by the start-up selection into the rest of the page's initialisation.
- A link without an `href` attribute (where `getAttribute` returns `null`) is not modelled; every link has a string `href`.
