# Kinetic balls and the unified form, in Dafny

A model of two components of the Yibrant site, with proofs about the model:

- **The kinetic-balls animation** (`src/components/KineticBallsAnimation.tsx`).
  - Ten coloured balls drift over a canvas: they are nudged away from the edges, bounce off the walls, are repelled by the mouse and lose speed to friction.
  - Their speed is kept within a floor and a ceiling, and overlapping balls are pushed apart and exchange momentum.
  - A click flings every ball in a random direction.
  - Each ball's colour is a random blend of two palette colours. Its gradient is drawn from copies of that colour with the channels shifted and clamped.
- **The unified contact / job-application form** (`src/components/UnifiedForm.tsx`).
  - The flag emoji for a country code.
  - The priority-first country list and the selected country.
  - The defaults each mode starts from.
  - The schema's length and enum rules, and the messages it sets for the name, email and country rules.
  - The payload that is submitted.

Layout:

| file | module | contents |
|---|---|---|
| `wrappers.dfy` | `Wrappers` | `Option` |
| `decimal.dfy` | `Decimal` | base-10 printing of integers and the `/\d+/g` digit-run reading of strings |
| `colors.dfy` | `Colors` | palette, `lerp`, `getRandomBlendedColor`, `adjustColor`, gradient stops |
| `physics.dfy` | `Physics` | one ball's update as a pipeline of pure stages over a `Body` value |
| `collisions.dfy` | `Collisions` | the pair rule of `resolveCollisions` and the nested sweep over all pairs |
| `scene.dfy` | `KineticBalls` | the `Particle` and `Scene` classes, whose methods update fields in place; each method is proved equal to the pure stages above |
| `form.dfy` | `Form` | `getFlagEmoji`, `CountrySelect` ordering and selection, mode defaults, `defaultValues`, `formSchema`, `onSubmit` |

Values the program takes from the outside world are parameters of the model:

- Every `Math.random()` draw is a real in [0, 1). A random angle θ is given as its unit vector (cos θ, sin θ).
- `Math.sqrt` is a function `sqrt` with `IsSqrt(sqrt)`: on non-negative arguments it gives the non-negative root.
- (cos, sin) of `Math.atan2(dy, dx)` is a function `polar` with `IsPolar(sqrt, polar)`. It gives the unit vector along (dx, dy), and (1, 0) for the zero vector.
- The canvas size and the container offset are parameters.
- The country list from `getCountries()` is a sequence parameter.
- The calling codes from `getCountryCallingCode` are a map; a missing key stands for the lookup that throws.
- The email check is a predicate parameter.

## Model

Paths are relative to the repository root.

| member | source | states |
|---|---|---|
| Colors.Lerp | src/components/KineticBallsAnimation.tsx:38-40 | gives `start` at t = 0 and `end` at t = 1, and moves from `start` by t times the span |
| Colors.LerpBetween | src/components/KineticBallsAnimation.tsx:38-40 | for t in [0, 1] the interpolant lies between the two end points |
| Colors.Round | src/components/KineticBallsAnimation.tsx:51-53 | `Math.round` gives the integer within half a unit, with halves rounded up |
| Colors.RoundBetween | src/components/KineticBallsAnimation.tsx:51-53 | rounding a value between two integers stays between them |
| Colors.PickIndex | src/components/KineticBallsAnimation.tsx:43-45 | `floor(random * 3)` is a valid palette index |
| Colors.BlendBetween | src/components/KineticBallsAnimation.tsx:47-53 | each blended channel lies between the two source channels; two in-gamut colours blend to an in-gamut colour |
| Colors.FirstDifferent | src/components/KineticBallsAnimation.tsx:44-45 | the retry loop stops at the first draw whose index differs from `idx1`; every earlier draw repeats `idx1` |
| Colors.RandomBlendedColor | src/components/KineticBallsAnimation.tsx:42-56 | the two indices are distinct palette indices, the second taken from the first differing draw; the result prints the blend of the two palette colours |
| Colors.BlendedColorInGamut | src/components/KineticBallsAnimation.tsx:42-56 | every generated colour is in [0, 255] per channel and is the blend of two distinct palette entries |
| Decimal.DigitsValueOfNatToString | src/components/KineticBallsAnimation.tsx:55 | a natural number printed by a template literal reads back as itself with `Number` |
| Decimal.DigitRunsOfNumber | src/components/KineticBallsAnimation.tsx:183 | a printed number followed by a non-digit is read by `/\d+/g` as exactly that one run |
| Decimal.DigitRunsSkipsNonDigits | src/components/KineticBallsAnimation.tsx:183 | text without digits contributes no run |
| Colors.RgbTextRuns | src/components/KineticBallsAnimation.tsx:188 | the runs of `rgb(r,g,b)` are the runs of its three fields, in order |
| Colors.ParseFormatted | src/components/KineticBallsAnimation.tsx:183 | the digit runs of a printed colour with no negative channel are exactly its three channels |
| Colors.Clamp | src/components/KineticBallsAnimation.tsx:185-187 | the result is in [0, 255], equals the input inside that range, and is 0 below it and 255 above it |
| Colors.AdjustColor | src/components/KineticBallsAnimation.tsx:182-189 | a string without digits is returned unchanged |
| Colors.AdjustColorRuns | src/components/KineticBallsAnimation.tsx:182-189 | the output's digit runs are the clamped shifted first three input runs; a missing part prints as NaN and contributes no run |
| Colors.AdjustColorReadsBack | src/components/KineticBallsAnimation.tsx:183-188 | for any input with digits, the output has min(3, number of runs) runs, each the clamped shifted input run and at most 255 |
| Colors.Shift | src/components/KineticBallsAnimation.tsx:185-187 | shifting and clamping every channel gives an in-gamut colour |
| Colors.AdjustFormatted | src/components/KineticBallsAnimation.tsx:182-189 | adjusting a printed colour prints the shifted, clamped colour (parse, shift, print round trip) |
| Colors.AdjustByZero | src/components/KineticBallsAnimation.tsx:182-189 | amount 0 is the identity on printed in-gamut colours |
| Colors.GradientStops | src/components/KineticBallsAnimation.tsx:193-204 | 4 stops in the light theme and 3 otherwise; offsets strictly increase from 0 to 1; the centre stop is the colour brightened by 100 |
| Colors.GradientStopsShifted | src/components/KineticBallsAnimation.tsx:193-204 | for a generated colour every stop is the colour shifted by its amount: +100, +50, +10, +50 in the light theme, and +100, the colour itself, -50 otherwise |
| Physics.SqrtIsNorm | src/components/KineticBallsAnimation.tsx:223 | `sqrt(dx*dx + dy*dy)` is the Euclidean length of (dx, dy) |
| Physics.PolarToward | src/components/KineticBallsAnimation.tsx:227-231 | (cos, sin) of `atan2(dy, dx)` is the unit vector that, scaled by the length, gives (dx, dy) |
| Physics.SoftWallPush | src/components/KineticBallsAnimation.tsx:96-103 | within 50 of a wall the velocity gains 0.2 away from it; both conditions on one axis cancel; only the velocity changes |
| Physics.Advance | src/components/KineticBallsAnimation.tsx:105-107 | the position moves by 0.8 times the velocity; nothing else changes |
| Physics.WallAxis | src/components/KineticBallsAnimation.tsx:112-126 | past a wall the coordinate is clamped to that wall less the radius and the velocity flips; otherwise nothing moves; when the extent is at least a diameter the coordinate ends within [r, extent - r] |
| Physics.WallCollide | src/components/KineticBallsAnimation.tsx:109-126 | both axes clamp and reflect independently; radius and colour are kept |
| Physics.WallCollideBounds | src/components/KineticBallsAnimation.tsx:109-126 | after the clamp the centre is within the walls when the canvas is at least a diameter wide and high; a ball inside is untouched; the speed is kept |
| Physics.PushMagnitude | src/components/KineticBallsAnimation.tsx:133-140 | the mouse push `1.5 * (180 - dist) / 180` lies in (0, 1.5] inside the interaction radius |
| Physics.Repel | src/components/KineticBallsAnimation.tsx:128-142 | an inactive mouse, or one at least 180 away, leaves the ball unchanged; only the velocity ever changes |
| Physics.RepulsionPointsAway | src/components/KineticBallsAnimation.tsx:128-142 | within 180 of an active mouse the added velocity has length `1.5 * (180 - dist) / 180` in (0, 1.5] and points from the mouse to the ball |
| Physics.ApplyFriction | src/components/KineticBallsAnimation.tsx:145-146 | both velocity components are multiplied by 0.995 |
| Physics.FrictionSlows | src/components/KineticBallsAnimation.tsx:145-146 | friction scales the squared speed by 0.995² and never speeds a ball up |
| Physics.ScaledSpeed | src/components/KineticBallsAnimation.tsx:151-153 | scaling by `target / speed` gives speed `target` |
| Physics.ScaledDirection | src/components/KineticBallsAnimation.tsx:150-164 | positive scaling keeps the direction of motion |
| Physics.SpeedControl | src/components/KineticBallsAnimation.tsx:148-164 | the floor and ceiling stage changes only the velocity |
| Physics.SpeedControlBand | src/components/KineticBallsAnimation.tsx:148-164 | a positive speed below 1.5 becomes 1.5, one above 8 becomes 8, one in [1.5, 8] is kept, and the direction is kept |
| Physics.ReseedBelowFloor | src/components/KineticBallsAnimation.tsx:154-156 | a ball at rest is reseeded with components in [-0.5, 0.5); its speed is then below the 1.5 floor, which this frame does not restore |
| Physics.SpeedBand | src/components/KineticBallsAnimation.tsx:148-164 | after the stage the speed is in [1.5, 8], unless the ball was reseeded from rest |
| Physics.Coast | src/components/KineticBallsAnimation.tsx:96-146 | the stages before the speed measurement keep radius and colour |
| Physics.StepBody | src/components/KineticBallsAnimation.tsx:95-165 | a whole update keeps radius and colour |
| Physics.StepBodyInBounds | src/components/KineticBallsAnimation.tsx:109-126 | right after an update the centre lies within the walls when the canvas is at least a diameter wide and high |
| Physics.StepBodySpeed | src/components/KineticBallsAnimation.tsx:144-164 | right after an update the speed is in [1.5, 8], unless the ball was at rest and got reseeded |
| Collisions.Separate | src/components/KineticBallsAnimation.tsx:228-235 | the push moves only positions, and the pair's summed position is kept |
| Collisions.SeparateDistance | src/components/KineticBallsAnimation.tsx:228-235 | moving each centre by half the overlap leaves them exactly r1 + r2 apart along the original direction |
| Collisions.Exchange | src/components/KineticBallsAnimation.tsx:237-244 | the velocity exchange moves only velocities, and the pair's summed velocity is kept |
| Collisions.ExchangeSwaps | src/components/KineticBallsAnimation.tsx:240-244 | along a unit normal the two balls swap their normal velocity components and keep their tangential ones |
| Collisions.CollidePair | src/components/KineticBallsAnimation.tsx:221-245 | a pair that does not overlap is untouched; radii and colours are kept; the summed position and velocity are kept |
| Collisions.CollisionSeparates | src/components/KineticBallsAnimation.tsx:221-235 | an overlapping pair ends exactly r1 + r2 apart along its original direction |
| Collisions.CollisionExchanges | src/components/KineticBallsAnimation.tsx:221-244 | an overlapping pair with distinct centres swaps normal velocity components and keeps tangential ones |
| Collisions.SeparateThenExchange | src/components/KineticBallsAnimation.tsx:228-244 | the push does not disturb the exchange that follows it |
| Collisions.ExchangeAlongDirection | src/components/KineticBallsAnimation.tsx:227-238 | the division-based normal `dx / dist` equals the atan2 direction for distinct centres |
| Collisions.CollisionCanCrossWall | src/components/KineticBallsAnimation.tsx:232-235 | a concrete pair inside the walls whose collision push moves one ball past its wall: the wall bound holds only right after the update |
| Collisions.ResolvePair | src/components/KineticBallsAnimation.tsx:218-245 | with `Math.sqrt` and `atan2`, a pair step keeps radii, colours, summed position and summed velocity |
| Collisions.ResolvePairSeparates | src/components/KineticBallsAnimation.tsx:221-235 | with the true sqrt and atan2, an overlapping pair ends exactly r1 + r2 apart along the line through its original centres |
| Collisions.ResolvePairExchanges | src/components/KineticBallsAnimation.tsx:221-244 | with the true sqrt and atan2, an overlapping pair with distinct centres swaps its normal velocity components and keeps its tangential ones |
| Collisions.PairRuleConserves | src/components/KineticBallsAnimation.tsx:226-244 | the pair rule conserves radii, colours and summed position and velocity for every pair of balls |
| Collisions.CollideAt | src/components/KineticBallsAnimation.tsx:218-245 | resolving pair (i, j) in the list changes no other ball |
| Collisions.Sweep | src/components/KineticBallsAnimation.tsx:216-247 | the nested loop from (i, j) keeps the list length |
| Collisions.ResolveAll | src/components/KineticBallsAnimation.tsx:215-248 | resolveCollisions keeps the number of balls |
| Collisions.PairsFrom | src/components/KineticBallsAnimation.tsx:216-217 | every visited pair (a, b) has i <= a < b < n |
| Collisions.ApplyPairs | src/components/KineticBallsAnimation.tsx:215-248 | resolving a list of pairs in order keeps the list length |
| Collisions.PairsFromMembers | src/components/KineticBallsAnimation.tsx:216-217 | the loop from (i, j) visits exactly (i, b) for j <= b < n and every (a, b) with i < a < b < n |
| Collisions.PairsFromOrdered | src/components/KineticBallsAnimation.tsx:216-217 | the visiting order is strictly increasing, so no pair is visited twice |
| Collisions.SweepAgrees | src/components/KineticBallsAnimation.tsx:216-247 | the nested loop from (i, j) resolves exactly the pairs its pair list names, in that order |
| Collisions.ResolveAllVisitsEachPairOnce | src/components/KineticBallsAnimation.tsx:215-248 | resolveCollisions resolves every pair a < b < n once, in row order, and no other pair |
| Collisions.CollideAtPreserves | src/components/KineticBallsAnimation.tsx:218-245 | one pair step keeps the totals of x, y, vx and vy, and every radius and colour |
| Collisions.SweepPreserves | src/components/KineticBallsAnimation.tsx:216-247 | a sweep with a conserving rule keeps the totals, radii and colours |
| Collisions.ResolveAllPreserves | src/components/KineticBallsAnimation.tsx:215-248 | resolveCollisions keeps the ball count, every radius and colour, and the system's summed position and summed velocity |
| KineticBalls.Place | src/components/KineticBallsAnimation.tsx:84-85 | a spawn coordinate on an extent of at least 100 lies at least 50 from both ends |
| KineticBalls.SpawnPlacement | src/components/KineticBallsAnimation.tsx:81-86 | a new ball has radius in [10, 22) and its centre at least 50 from every edge |
| KineticBalls.SpawnSpeed | src/components/KineticBallsAnimation.tsx:87-90 | a new ball moves at speed 5 |
| KineticBalls.Particle.constructor | src/components/KineticBallsAnimation.tsx:81-93 | the new particle's fields are the spawned ball for its draws; its colour is the blended colour printed as `rgb(...)` |
| KineticBalls.Particle.Update | src/components/KineticBallsAnimation.tsx:95-165 | the fields after `update` are the pure update of the old fields (stages in source order) |
| KineticBalls.Particle.PushOffWalls | src/components/KineticBallsAnimation.tsx:96-103 | the fields after stage 0 are the soft wall push of the old ones |
| KineticBalls.Particle.Move | src/components/KineticBallsAnimation.tsx:105-107 | the fields after stage 1 are the advanced old ones |
| KineticBalls.Particle.BounceOffWalls | src/components/KineticBallsAnimation.tsx:109-126 | the fields after stage 2 are the wall-clamped old ones |
| KineticBalls.Particle.RepelFrom | src/components/KineticBallsAnimation.tsx:128-142 | the fields after stage 3 are the old ones repelled by the mouse at the measured distance and angle |
| KineticBalls.Particle.SlowDown | src/components/KineticBallsAnimation.tsx:144-146 | the fields after friction are the slowed old ones |
| KineticBalls.Particle.ControlSpeed | src/components/KineticBallsAnimation.tsx:148-164 | the fields after the speed stage are the old ones under the floor and ceiling for the speed measured once |
| KineticBalls.StepAll | src/components/KineticBallsAnimation.tsx:262 | updating every ball keeps the list length |
| KineticBalls.CollideParticles | src/components/KineticBallsAnimation.tsx:218-245 | the two particles' fields after one inner-loop pass are the pair rule applied to their old fields |
| KineticBalls.PushApart | src/components/KineticBallsAnimation.tsx:228-235 | the in-place position updates are the separation of the old values |
| KineticBalls.ExchangeVelocities | src/components/KineticBallsAnimation.tsx:237-244 | the in-place velocity updates are the exchange of the old values |
| KineticBalls.Scene.constructor | src/components/KineticBallsAnimation.tsx:59-62 | the initial state: zero-sized canvas, no particles, mouse at (-1000, -1000) and inactive |
| KineticBalls.Scene.Resize | src/components/KineticBallsAnimation.tsx:64-71 | only width and height change |
| KineticBalls.Scene.Init | src/components/KineticBallsAnimation.tsx:250-255 | init leaves exactly 10 fresh, distinct particles, the k-th spawned from the k-th draws, with canvas and mouse unchanged |
| KineticBalls.Scene.UpdateAll | src/components/KineticBallsAnimation.tsx:262 | the balls after `forEach(update)` are the pure update of each old ball, in place |
| KineticBalls.Scene.UpdateAt | src/components/KineticBallsAnimation.tsx:262 | updating particle i changes no other particle |
| KineticBalls.Scene.CollidePairAt | src/components/KineticBallsAnimation.tsx:218-245 | the inner-loop body resolves pair (i, j) of the list in place and touches no other ball |
| KineticBalls.Scene.ResolveRow | src/components/KineticBallsAnimation.tsx:217-246 | the inner loop for row i performs exactly that row of the sweep |
| KineticBalls.Scene.ResolveCollisions | src/components/KineticBallsAnimation.tsx:215-248 | the nested loop leaves the list as the pure pair sweep of the old list |
| KineticBalls.Scene.Animate | src/components/KineticBallsAnimation.tsx:258-266 | one frame updates every ball, then resolves collisions, in that order |
| KineticBalls.Scene.HandleMouseMove | src/components/KineticBallsAnimation.tsx:270-276 | the mouse moves to the client position less the container offset and becomes active; nothing else changes |
| KineticBalls.Scene.HandleMouseLeave | src/components/KineticBallsAnimation.tsx:278-280 | only the mouse's `active` flag is cleared |
| KineticBalls.Scene.HandleClick | src/components/KineticBallsAnimation.tsx:282-289 | every ball's velocity becomes its drawn heading times 10; position, radius and colour are kept |
| KineticBalls.ClickSpeedIsTen | src/components/KineticBallsAnimation.tsx:282-289 | with unit headings every ball moves at speed 10 after a click |
| Form.Utf16 | src/components/UnifiedForm.tsx:38-39 | every UTF-16 unit is below 0x10000 and there is at least one per character |
| Form.Utf16OfBmp | src/components/UnifiedForm.tsx:38-39 | below U+10000 each character is one unit equal to its code |
| Form.UpperChar | src/components/UnifiedForm.tsx:37 | letters map to upper-case letters, and nothing else does; non-lower-case characters are unchanged |
| Form.ToUpper | src/components/UnifiedForm.tsx:37 | upper-casing works character by character and keeps the length |
| Form.FlagEmoji | src/components/UnifiedForm.tsx:34-41 | "" gives ""; otherwise one code point per UTF-16 unit of the upper-cased code |
| Form.FlagOfLetters | src/components/UnifiedForm.tsx:34-41 | for a code of Latin letters there is one code point per letter, 127397 above its upper-case form, in U+1F1E6..U+1F1FF |
| Form.FlagLetters | src/components/UnifiedForm.tsx:34-41 | reading regional indicators back gives one letter per code point |
| Form.FlagRoundTrip | src/components/UnifiedForm.tsx:34-41 | the flag of a code of letters reads back as the upper-cased code |
| Form.Without | src/components/UnifiedForm.tsx:46 | a country is kept exactly when it is in the library list and not a priority country |
| Form.WithoutIsSubsequence | src/components/UnifiedForm.tsx:46 | the filter keeps the library's order |
| Form.SortedCountriesShape | src/components/UnifiedForm.tsx:45-47 | the sorted list is the priority list, then the library list in order with the priority countries removed; it names exactly the countries of the two lists |
| Form.SortedCountriesPermutes | src/components/UnifiedForm.tsx:45-47 | when the priority countries are among the library's countries and neither list has duplicates, the sorted list is a permutation of the library list |
| Form.SelectedCountry | src/components/UnifiedForm.tsx:49 | a selection exists exactly when the value is non-empty or there is a priority country |
| Form.SelectedIsListed | src/components/UnifiedForm.tsx:45-49 | the selection is the value when non-empty, else the first priority country, and it appears in the sorted list |
| Form.ModeName | src/components/UnifiedForm.tsx:75 | the mode's name is one of the schema's two modes |
| Form.ModeDefaults | src/components/UnifiedForm.tsx:118-119 | enquiry gives "US" and job gives "IN"; the priority list is those two countries without duplicates, headed by the default, which the select shows before a choice |
| Form.OrElse | src/components/UnifiedForm.tsx:129-132 | `x \|\| fallback` keeps a non-empty `x` and otherwise gives the fallback |
| Form.DefaultValues | src/components/UnifiedForm.tsx:123-134 | mode and country as the mode gives them; empty name, email, mobile, portfolio and cover, and no resume; the role is non-empty exactly when a non-empty default role was given, and is then that role; an enquiry type exactly when one is given or the select is hidden ("general" then); the message is "I am interested in <service>..." exactly when a service is given |
| Form.IssuesReportEachRule | src/components/UnifiedForm.tsx:74-92 | each schema issue is reported exactly when its rule is broken (mode in {job, enquiry}, name of 2+ units, valid email, non-empty country, enquiry type in {money, idea, general} if present); a form passes exactly when it breaks none |
| Form.IssueMessage | src/components/UnifiedForm.tsx:76-84 | the name, email and country rules carry the schema's own message; the two enum rules carry none |
| Form.CustomMessageShown | src/components/UnifiedForm.tsx:76-84 | a rule's own message is among the messages shown exactly when that rule's issue is reported |
| Form.CustomMessagesReportRules | src/components/UnifiedForm.tsx:74-92 | "Name must be at least 2 characters." is shown exactly when the name has fewer than 2 units, "Please enter a valid email address." exactly when the email is invalid, and "Please select a country." exactly when the country is empty |
| Form.DefaultsNeedNameAndEmail | src/components/UnifiedForm.tsx:74-134 | the defaults meet the mode, country and enquiry-type rules; a fresh form fails only on its name and, unless "" counts as an email, its email |
| Form.FilledDefaultsPass | src/components/UnifiedForm.tsx:74-134 | the defaults with a name of 2+ units and a valid email pass the schema |
| Form.Entries | src/components/UnifiedForm.tsx:153 | the copied record has exactly the present fields of the data |
| Form.OnSubmit | src/components/UnifiedForm.tsx:152-163 | the payload is the data, except that the mobile becomes "+<code> <mobile>" when the calling-code lookup succeeds (kept otherwise), and in job mode a non-empty resume list becomes its first file |

## Left out

- Canvas drawing, the `requestAnimationFrame` loop, and adding and removing event listeners. `Scene.Animate` is one frame without the drawing.
- React state, hooks and the theme ref, and the measurement in `resize`. The theme, the canvas size and the container offset are parameters.
- IEEE floating point. The model computes over the reals.
  - `Math.round` is exact.
  - `Math.sqrt` and cos/sin of `atan2` are the oracle functions described above.
- `Collisions.CollidePair`: at coincident centres (dist = 0) the source divides by zero. The velocities then become NaN. The model keeps the pushed pair's velocities instead, because NaN has no counterpart over the reals.
- `Colors.RandomBlendedColor`: the retry loop for the second index terminates with probability 1 in the source. The model takes a finite sequence of draws and requires that one of them picks a different index.
- `KineticBalls.Scene.Init`: it states each ball's colour only as the string the constructor chose. That string is the printed blend, as `KineticBalls.Particle.constructor` states.
- Right after an update the wall bounds and the speed band hold (`Physics.StepBodyInBounds`, `Physics.StepBodySpeed`). The collision pass can then push a ball past a wall, as `Collisions.CollisionCanCrossWall` exhibits. A ball reseeded from rest moves slower than the 1.5 floor.
- The three.js scenes, the tsparticles background, the pages, routing, navigation, ticker and theme toggle are not part of this model.
- The form's rendering, Formspree submission, the success and error toasts, and the form reset are not modelled.
- The phone library's country and calling-code data and the email syntax of the schema are parameters.
  - The calling code shown beside the select is not modelled.
  - The enum rules' library-supplied error messages are not modelled.
- `Form.UpperChar` / `Form.ToUpper`: only a-z are upper-cased. Unicode case mappings outside ASCII (some of which change the length) are left out; `Form.FlagOfLetters` and `Form.FlagRoundTrip` are stated for codes of Latin letters.
- `Form.FormValues`: an absent optional field is `None`, and the spread copies only present fields. A field that is present but holds `undefined` is treated like an absent one.
- `Form.OnSubmit`: `resume` is modelled as a list of file handles, the shape a file input gives. Other values that `z.any()` admits are not modelled.
