# Hexagon background and page logic, modelled in Dafny

This project models the two pieces of state-changing logic of a fan site's
front page:

- **The animated hexagon background** (`hexagon-bg.js`). The background lays
  out a grid of hexagonal cells column by column. Every frame it picks a few
  cells at random and then steps every cell once. A picked cell is filled for
  a random number of frames and then goes back to being outlined.
  - `hex_cell.dfy` holds one cell. The class `Hex` has the source's mutable
    fields, and the spec functions `Activate`, `Advance` and `Appearance` say
    what `Pick` and `Step` do. Lemmas follow a cell through its whole life,
    and others cover the corner geometry.
  - `hexagon_grid.dfy` holds the class `HexagonBackground`. Its field `hexs`
    is the sequence of cells. Its methods are `CreateHexGrid` (with
    `CreateColumn` for the inner loop), `Resize` and `Loop` (with `PickCells`
    and `StepCells` for its two phases). It is proved against the spec functions `GridOrder`, `PickPhase` and
    `AdvanceAll`.
- **The page logic** (`script.js`):
  - `carousel.dfy`: the works carousel. It covers the modular next and
    previous index, the indicator clicks, and exactly one active indicator.
  - `sync_test.dfy`: the five-question sync test. It covers score
    accumulation, the question counter, the progress percentage, the
    four-way character classification and the random sync rate.
  - `scramble.dfy`: the scrambled heading. It covers the random stand-in
    characters, the shuffled reveal order and the in-place update loops.
  - `nav_highlight.dfy`: the navigation highlight. It covers collecting the
    sections and the backward scan that marks the link of the last reached
    section.
  - `marks.dfy`: counts the elements that carry the `active` class. The
    carousel indicators and the nav links share it.
  - `js_math.dfy`: the JavaScript arithmetic the page relies on:
    `Math.floor(Math.random() * n)` and the truncating `%`.

Every `Math.random()` call becomes a parameter of type `Draw`, a real in
[0, 1). What a canvas call would draw is returned as a `Paint` value. DOM
state that the code reads becomes a parameter: container sizes, element
offsets, the scroll position and the GSAP progress. DOM state that the code
writes becomes a field: the track offset, the `active` classes, the progress
bar and the shown text.

After a window resize the track is placed by the re-measured item width
(script.js:51), but the width stored on load (script.js:11) is kept, so the
next slide change places the track by the load-time width again.
`Carousel.CarouselState.OnResize` leaves the stored width alone and
`NextSlide`, `PrevSlide` and `SelectIndicator` place the track by it, as the
code does.

The source comment at script.js:368 says the sync rate lies between 70 and
100. The expression gives 70 to 99, and `SyncTest.SyncRate` and
`SyncTest.SyncRateReaches` follow the code.

## Model

| member | source | states |
|---|---|---|
| JsMath.ScaledFloor | hexagon-bg.js:93 | `Math.floor(r * n)` for r in [0, 1) is an index in [0, n). It is 0 when n is 0. |
| JsMath.ScaledFloorReaches | hexagon-bg.js:93 | Every index k < n is reached, by the draw k/n. |
| JsMath.JsRem | script.js:26 | JavaScript's `%`: the remainder has the dividend's sign, is smaller than the divisor in size, and a = q*b + r. |
| JsMath.JsRemNonNegative | script.js:26 | For a non-negative dividend and a positive divisor, it equals the mathematical remainder. |
| HexCell.Merge | hexagon-bg.js:6-15 | Every option the caller gives is used as given, and every option the caller leaves out takes its default. |
| HexCell.MergeExtremes | hexagon-bg.js:4-15 | No options give exactly the defaults, and a complete set of options replaces every default. |
| HexCell.Appearance | hexagon-bg.js:165-191 | A cell is filled iff it is picked, with its colour template at progress time/targetTime taken before the frame is counted; an idle cell is outlined in the stroke colour. |
| HexCell.Duration | hexagon-bg.js:160 | `floor(baseTime + addedTime*r)` lies in [baseTime, baseTime+addedTime-1] for positive addedTime. It is baseTime for 0, and in [baseTime+addedTime, baseTime] for negative addedTime. |
| HexCell.Activate | hexagon-bg.js:155-161 | After a pick, the cell is picked with time 0. Its colour is one of the options' colours and its target is the drawn duration. |
| HexCell.Advance | hexagon-bg.js:177-183 | A step on a picked cell adds exactly 1 to time and keeps target and colour. The cell stays picked iff the new time is below the target. A step on an idle cell changes nothing. |
| HexCell.Steps | hexagon-bg.js:163-193 | Frames without a pick never change a cell's target or colour, and a picked cell keeps a colour. |
| HexCell.ActiveCountsUp | hexagon-bg.js:177-183 | A picked cell counts up one per frame and stays picked for exactly max(target - time, 1) frames. |
| HexCell.IdleStaysIdle | hexagon-bg.js:188-191 | An unpicked cell is left unchanged by any number of steps. |
| HexCell.StepsAdd | hexagon-bg.js:163-193 | k + m frames are k frames followed by m frames. |
| HexCell.Lifetime | hexagon-bg.js:165-183 | A cell picked with target T >= 1 is picked in exactly frames 0..T-1. In frame k it is filled at progress k/T, taken before the increment. From frame T on it is idle with time T. |
| HexCell.Vertices | hexagon-bg.js:136-152 | Six corners, point-symmetric about the centre. The top and bottom corners are (x, y - side) and (x, y + side). |
| HexCell.OutlineTurnsOneWay | hexagon-bg.js:136-152 | When cos > 0 and 0 < sin < side, the outline turns the same way at every corner. |
| HexCell.DefaultDurations | hexagon-bg.js:9-10 | With the default options, every activation lasts 40 to 49 frames. |
| HexCell.Hex.constructor | hexagon-bg.js:120-130 | A new cell is at the given centre, unpicked, with time 0 and target 0, and its corners are `Vertices`. |
| HexCell.Hex.Pick | hexagon-bg.js:155-161 | The cell's new state is `Activate` of the draws, whatever it was before. |
| HexCell.Hex.Step | hexagon-bg.js:163-193 | The new state is `Advance` of the old one. What is drawn (fill or outline) follows the state before the increment. |
| HexagonGrid.Column | hexagon-bg.js:77-80 | One column's cells: rows 0..rows-1, top to bottom. |
| HexagonGrid.GridOrder | hexagon-bg.js:75-81 | createHexGrid's push order: columns left to right, each top to bottom, columns * rows positions in all. |
| HexagonGrid.GridOrderAt | hexagon-bg.js:75-81 | In the column-major order createHexGrid pushes in, cell (c, r) is at index c*rows + r. |
| HexagonGrid.PickPhase | hexagon-bg.js:92-95 | After the pick phase, a cell no draw lands on is unchanged. A cell a draw lands on is picked with time 0. |
| HexagonGrid.LastPickWins | hexagon-bg.js:92-95 | When several draws land on one cell, the last one decides its state. |
| HexagonGrid.AdvanceAll | hexagon-bg.js:98 | The step phase advances every cell exactly once. |
| HexagonGrid.Appearances | hexagon-bg.js:98 | What the step phase draws, cell by cell in array order. |
| HexagonGrid.FirstFrame | hexagon-bg.js:84-98 | On an idle grid with one pick of fixed duration, exactly the chosen cell is picked after the frame, with time 1. |
| HexagonGrid.HexagonBackground.constructor | hexagon-bg.js:4-58 | The options are the caller's merged onto the defaults (`Merge`), and difY = side*3/2. The grid is laid out from scratch, and every cell is new and idle. |
| HexagonGrid.HexagonBackground.Resize | hexagon-bg.js:60-68 | The new size is stored and the grid is rebuilt: laid out, every cell new and idle. |
| HexagonGrid.HexagonBackground.CreateHexGrid | hexagon-bg.js:70-82 | The cells come in column-major order, each new and unpicked with time 0. A cell's x is the column x plus difX when its 1-based row counter is odd, and the column x otherwise. Every column has the same number of rows. |
| HexagonGrid.HexagonBackground.CreateColumn | hexagon-bg.js:76-80 | One column: new idle cells at rows 0..r-1, with the parity offset from the row counter. |
| HexagonGrid.HexagonBackground.Loop | hexagon-bg.js:84-102 | The tick advances by hueSpeed. The cells' new states are `AdvanceAll(PickPhase(old states, draws))`, and the paints are the steps' draws in array order. |
| HexagonGrid.HexagonBackground.PickCells | hexagon-bg.js:92-95 | The picks change the cell states exactly as `PickPhase` does; picking one cell changes no other. |
| HexagonGrid.HexagonBackground.StepCells | hexagon-bg.js:98 | Every cell steps exactly once, in array order: the new states are `AdvanceAll` of the old. |
| Carousel.NextIndex | script.js:26 | The next index is in [0, n) and equals (i + 1) mod n. |
| Carousel.PrevIndex | script.js:32 | The previous index is in [0, n) and equals (i - 1) mod n, so index 0 goes back to n - 1. |
| Carousel.PrevUndoesNext | script.js:25-34 | prev undoes next, and next undoes prev. |
| Carousel.NextTimes | script.js:25-28 | The index after k calls of nextSlide (presses or autoplay ticks): the start for k = 0, and an index in [0, n) after any call. |
| Carousel.NextTimesMovesOn | script.js:25-28 | k presses of next (or autoplay ticks) move to (i + k) mod n. |
| Carousel.FullCycle | script.js:25-28 | n presses of next come back to the start. |
| Carousel.CarouselState.constructor | script.js:10-12 | On load the index is 0 and the track is not moved. |
| Carousel.CarouselState.UpdateCarousel | script.js:15-22 | The track moves to index*itemWidth. Indicator k is active iff k is the index, so exactly one is active when the index has an indicator. |
| Carousel.CarouselState.NextSlide | script.js:25-28 | The index becomes `NextIndex` and stays in [0, totalItems). The track moves to the new index times the stored item width, and only the new index's indicator is active. |
| Carousel.CarouselState.PrevSlide | script.js:31-34 | The index becomes `PrevIndex` and stays in [0, totalItems). The track moves to the new index times the stored item width, and only the new index's indicator is active. |
| Carousel.CarouselState.SelectIndicator | script.js:37-42 | A click on indicator i makes i current and the only active indicator, and moves the track to i times the stored item width. |
| Carousel.CarouselState.OnResize | script.js:49-53 | The track moves to index*newItemWidth. |
| Marks.OnlyCurrentActive | script.js:19-21 | Marking exactly the position equal to the current index marks one element if it exists, and none otherwise. |
| SyncTest.TotalScore | script.js:329 | The running total after m answers, each option scoring 1..4, lies between m and 4m. |
| SyncTest.FinalScoreRange | script.js:247-298 | After all five answers the total lies in [5, 20]. |
| SyncTest.Classify | script.js:350-366 | The four bands <=8, 9..12, 13..16 and >16 partition the scores (each direction of each band). |
| SyncTest.ClassifyMonotone | script.js:350-366 | A higher score never names an earlier character. |
| SyncTest.EveryCharacterReachable | script.js:247-366 | Every character is the result of some complete set of answers. |
| SyncTest.SyncRate | script.js:368 | The sync rate is a whole number in [70, 99]. |
| SyncTest.SyncRateReaches | script.js:368 | Every rate in [70, 99] can be shown, so the range is exactly that. |
| SyncTest.Percent | script.js:332-338 | The progress after q of n questions lies in [0, 100]. It is 100 iff q = n and 0 iff q = 0. |
| SyncTest.Quiz.constructor | script.js:300-301 | On load: question 0, score 0, no result. |
| SyncTest.Quiz.StartTest | script.js:305-310 | Reset to question 0, score 0, progress 0, no answers and no result. |
| SyncTest.Quiz.SelectOption | script.js:328-339 | The option's score is added and the counter goes up by one. Before the end, progress is counter/5*100. After the last answer, progress is 100, the score is in [5, 20], and the result is `Classify` of the score with the drawn sync rate. |
| Scramble.AlphabetInOrder | script.js:164 | The stand-in alphabet is A-Z, then a-z, then 0-9, each in code order. |
| Scramble.AlphabetIsAlnum | script.js:164 | The alphabet holds exactly the 62 letters and digits. |
| Scramble.RandomCjk | script.js:161 | The random CJK stand-in is in [U+4E00, U+9FA5]. |
| Scramble.RandomCjkCovers | script.js:161 | Every character of that range can be drawn. |
| Scramble.RandomAlnum | script.js:164-165 | The random alphanumeric stand-in is a letter or digit. |
| Scramble.RandomAlnumCovers | script.js:164-165 | Every letter and digit can be drawn. |
| Scramble.Disguise | script.js:157-170 | A stand-in has the same kind as the original (CJK, letter or digit). Any other character is kept as it is. |
| Scramble.Range | script.js:173 | The initial reveal order is 0..n-1. |
| Scramble.RangeIsPermutation | script.js:173 | The initial reveal order is a permutation of 0..n-1. |
| Scramble.PermutationCovers | script.js:173-176 | A permutation of 0..n-1 holds every index below n. |
| Scramble.ExchangeKeepsPermutation | script.js:176 | Exchanging two entries keeps a permutation. |
| Scramble.ExchangedKeepsPermutation | script.js:176 | Whatever exchanges the sort with a random comparator makes, the reveal order stays a permutation. |
| Scramble.Shuffle | script.js:176 | The in-place sort leaves the array as `Exchanged` of its old contents. |
| Scramble.RevealCount | script.js:188-189 | `floor(progress * n)` is in [0, n], and n at progress 1. |
| Scramble.RevealCountMonotone | script.js:188-189 | Later progress never reveals fewer characters. |
| Scramble.ScrambleText.constructor | script.js:153-176 | The working text `currentText` holds the `Disguise` of every character, while the heading still shows the original text. The reveal order is the shuffled 0..n-1, a permutation. |
| Scramble.ScrambleText.OnUpdate | script.js:186-210 | With k = `RevealCount`: the first k reveal positions show the original, every later position a fresh `Disguise`. Punctuation is never altered, the length stays n, and at progress 1 the text is the original. |
| Scramble.ScrambleText.OnComplete | script.js:211-214 | The heading shows the original text. |
| NavHighlight.Targets | script.js:526-537 | A link's href becomes a section iff it starts with '#' and names an element of the page. |
| NavHighlight.TargetsAppend | script.js:526-537 | Sections keep the links' order: the targets of two runs of links are the first run's targets followed by the second's. |
| NavHighlight.CollectSections | script.js:526-537 | The push loop yields `Targets`, in link order. |
| NavHighlight.LastReached | script.js:547-557 | The chosen section is the last one whose top is <= the scroll position plus 100, or none if no top is. |
| NavHighlight.LastReachedMonotone | script.js:541-557 | Scrolling further never selects an earlier section. |
| NavHighlight.FirstLink | script.js:551 | `querySelector` finds the first link with that href. |
| NavHighlight.NavBar.constructor | script.js:522-561 | The sections are `Targets` of the links. Whatever classes the links had on load, after the scroll event dispatched at once only the first link of `LastReached`'s section is active, and at most one link is. |
| NavHighlight.NavBar.OnScroll | script.js:540-558 | Only the first link of `LastReached`'s section is active. At most one link is active, and exactly one iff some section top is reached. |

## Left out

- Canvas and DOM output is left out: element creation, styles, `innerHTML`, the result HTML and the `fillRect` repaint (hexagon-bg.js:88-89). Only the state behind them is modelled.
- `Math.sqrt`, `Math.cos` and `Math.sin` (hexagon-bg.js:51-58) and the `sin(prop*pi)` opacity (hexagon-bg.js:186) are floating-point trigonometry. difX, cos and sin are given positive reals, and the opacity appears as the pair (elapsed, target) in `Fill`.
- Reals are exact, not IEEE doubles, throughout (cell positions, tick, progress percentage). `Math.round` on the shown percentage is not modelled.
- `Math.random` is not modelled as a generator. Its results are parameters.
- Scheduling and event wiring are left out: `requestAnimationFrame`, `setInterval`/`clearInterval` and the mouse-enter and mouse-leave autoplay switch, which are host scheduling. A tick of autoplay is a call of `NextSlide`.
- The resize and scroll listener registrations are event wiring, and so is the `destroy` method with its listener-removal bug (hexagon-bg.js:105-115).
- HexagonGrid.HexagonBackground.constructor: requires side > 0. For side <= 0, difX and difY are <= 0, so the column loop or the row loop of createHexGrid (hexagon-bg.js:75 and :77) never ends on a container of real size and start-up hangs; that hang is not modelled.
- HexagonGrid.HexagonBackground.constructor: does not run the first `loop()` that `init` starts (hexagon-bg.js:45). It ends with tick 0 and the grid laid out, and the first frame is a separate call of `Loop`.
- The GSAP tween, its easing and its timing (script.js:183-215) are a library. Its `progress()` is a parameter of `OnUpdate`.
- Audio playback, the mobile menu, smooth scrolling, the fade-in checks, the header style and the Three.js viewer (script.js:69-148, 218-237, 394-519) are left out. They are I/O, library calls or styling, not the modelled state.
- Question and option texts, character images and descriptions are left out; they are display strings.
- Scramble.ScrambleText.constructor: takes characters as Unicode scalar values. JavaScript's `split('')` splits UTF-16 code units, which differs only for characters outside the Basic Multilingual Plane.
- Scramble.Shuffle: the sort with a random comparator is modelled as an arbitrary list of in-range exchanges. Which exchanges a given engine makes is not modelled.
- Carousel.CarouselState.constructor: requires at least one item, because script.js:11 reads the first item's width.
- NavHighlight.NavBar.OnScroll: takes the scroll position and section tops as integers, and the tops as a parameter read at scroll time. Link lookup by href assumes the href is a valid selector.
- NavHighlight.Targets: treats every '#'-prefixed href as a lookup that either finds an element or not. `document.querySelector` (script.js:529) throws on an href that is not a valid selector, such as a bare `#`, and the throw abandons the rest of the set-up; that failure is not modelled.
- NavHighlight.NavBar.constructor: assumes, like `Targets`, that every '#'-prefixed href is a valid selector, so the set-up never stops half-way.
- HexCell.Merge: an option is either given or absent. `Object.assign` also copies an option given as `undefined`, and keys that are not options; neither is modelled.
