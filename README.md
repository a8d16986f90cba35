# Platformer frame rules in Dafny

A model of the per-frame rules of a small tile-based pygame platformer, with
proofs about them. Every entity has an integer rectangle, possibly a vertical
velocity, and some timers and flags. Each `update(dt)` changes that state
against ordered lists: the tile cells a query returned, the enemies, the
players. The same game logic appears three times in the repository, and each
copy is modelled as written.

- `GAME.py`, the monolithic version. Its Player has gravity and the four-edge
  blocker resolution. Its Sentry patrols between reverse triggers and drains
  the player's health while touching. Its Bullet kills every enemy it
  overlaps. It also handles the player's keys and picks the lifebar colour
  and the level menu's result. Module `Monolith`, `monolith.dfy`.
- `lib/sprites/`, the refactored sprites.
  - `SpriteBase` (`sprite_base.dfy`): the discrete hit with its invincibility
    timer.
  - `Players` (`players.dfy`): player state and action gating.
  - `Enemies` (`enemies.dfy`): the Knight's patrol and contact hits.
  - `Objects` (`objects.dfy`): the bullet that kills only the nearest
    enemy.
  - `Rules` (`rules.dfy`): what both generations share word for word. That is
    the direction and moving constants, the animation table, the
    reverse-trigger step of the Knight and the Sentry, jump and shoot gating,
    the cooldown and the lifebar.
- `game.py`, the two-player game. Its `change_state` input machine, the
  player creation, the event dispatch and the end-of-tick death and exit
  checks are in module `Platformer` (`game.dfy`).
- `lib/menu.py`: the menu's selection wrap, its layout arithmetic and the
  key-to-result mappings of `level_menu` and `player_menu`. Module `Menus`.
- `structured_mainloop.py`: the frog that moves with the arrow keys, goes back
  when it touches a wall, and the border of walls. Module `Mainloop`.
- `lib/images.py`: the memoising image loader. Module `Images`.
- `Geometry` holds pygame's `Rect` and `colliderect`, tile cells and
  truncation. `Input` holds keys, events and the two key maps of
  `lib/keymap.py`. `Wrappers` holds `Option`.

Conventions:
- Classes stand for the sprites and the menu, whose methods update fields in
  place. Methods that do so are specified against pure functions, such as
  `Monolith.Resolve` for the blocker loop or `Platformer.ApplyKey` for
  `change_state`, and the lemmas are about those functions.
- Query results are input sequences in query order: `tilemap ... collide`,
  `spritecollide`, and `find`.
- Time, health and velocities are `real`.
- Whenever the source stores a float in a `Rect` field, or calls `int()`, the
  model truncates toward zero (`Geometry.Trunc`).

Where the design description of the system and the code differ, the model
follows the code:
- The description asks that side corrections be skipped while the feet are
  level with the cell's top (a "ledge-walk" rule). `GAME.py:229-232` have no
  such test.
- The description asks that a landing require horizontal overlap with the
  cell. `GAME.py:233` tests only the vertical crossing. The cell comes from an
  overlap query, so the two agree when the query is exact.
- The description has the Knight reverse on blockers as well.
  `lib/sprites/enemies.py:28-34` reverse only on `reverse` cells.
  `REVERSED_BY_BLOCKERS` is a constant nothing reads.
- The description treats the discrete hit as the default damage. `GAME.py`
  uses the continuous drain. Both are modelled, separately.

## Model

| member | source | states |
|---|---|---|
| Geometry.TruncBounds | GAME.py:60 | `int()` of a float drops the fraction toward zero: the result is within 1 of the value and never larger in magnitude |
| Rules.AnimationTableInjective | GAME.py:119-123 | the four (direction, moving) pairs select four different clips, so the clip determines both |
| Rules.JumpGating | GAME.py:185-195 | a jump happens iff it was requested and the sprite rests, or is airborne with dy > 60 and has not double-jumped; the request is always cleared; a jump sets dy to JUMP_SPEED and marks the double jump used exactly when airborne; otherwise dy and the double-jump flag are unchanged |
| Rules.DoubleJumpScenario | lib/sprites/players.py:127-138 | from rest a jump clears the double-jump flag; one airborne jump with dy > 60 is allowed; the third request in the same flight does nothing |
| Rules.ShootGating | GAME.py:198-204 | a shot is fired iff shoot was requested and the cooldown is 0; it starts from the sprite's centre in its direction and sets the cooldown to COOLDOWN_TIME; the request is always cleared; without a shot the cooldown is unchanged |
| Rules.CoolDown | GAME.py:220 | the new cooldown is never negative and is either 0 or the old value minus dt |
| Rules.CoolDownOverFrames | GAME.py:220 | over a run of frames, the cooldown ends as max(0, start minus the total time) |
| Rules.LifebarColour | GAME.py:335-341 | red exactly when health/max < 0.15, yellow exactly when it is in [0.15, 0.7), green exactly when it is at least 0.7 |
| Rules.LifebarColourMonotone | game.py:192-198 | more health never gives a worse colour |
| Rules.LifebarFill | game.py:200 | full health fills 247 pixels, zero health none, and health within [0, max] keeps the fill within [0, 247] |
| SpriteBase.HitEffect | lib/sprites/base.py:22-28 | with the hit timer running nothing changes; otherwise health drops by exactly attack/defense, the timer is set to BEEN_HIT_TIME, and the target is dead iff it was dead or health is now <= 0; death is never cleared |
| SpriteBase.HitTwiceCountsOnce | lib/sprites/base.py:24-26 | a second hit with no timer update in between changes nothing |
| SpriteBase.UpdateHitTimer | lib/sprites/base.py:30-31 | the new timer is max(been_hit − dt, 0): never negative, either 0 or the old value minus dt, and never below it; it does not grow when dt >= 0 and stays 0 once it reaches 0 |
| SpriteBase.BarrageEffect | lib/sprites/base.py:24-28 | k hits, with the timer reset between them, lower health by k·attack/defense, and the target is dead exactly when health ends <= 0 or it was already dead |
| Players.Player.constructor | lib/sprites/players.py:99-125 | the keys come from the key map; the state is that of `init_state`; dy 0, defense 1, not hit, not dead, facing right still; the rect is at the location with the image's size |
| Players.Player.InitKeys | lib/sprites/players.py:57-63 | the five key bindings equal the key map's fields |
| Players.Player.InitState | lib/sprites/players.py:66-97 | resting, double_jumped, jump, shoot and invincible are false; cooldown 0; health MAX_HEALTH (5); facing right, still, not running |
| Players.Player.Animate | lib/sprites/base.py:33-44 | the current clip is the table's clip for the current direction and moving; only the clip changes, so a repeat call is a no-op |
| Players.Player.UpdateHitTimer | lib/sprites/base.py:30-31 | the hit timer becomes the `update_hit_timer` value of the old timer |
| Players.Player.TryToJump | lib/sprites/players.py:127-138 | the new jump state and the outcome are `Rules.TryToJump` of the old state, so `Rules.JumpGating` applies: jumps exactly under the gating; clears the request; sets dy and the double-jump flag as the gating says |
| Players.Player.TryToShoot | lib/sprites/players.py:141-148 | the new shoot state and the shot are `Rules.TryToShoot` of the old state, so `Rules.ShootGating` applies: returns a shot from the rect's centre iff shoot was set and the cooldown was 0; clears the request; starts the cooldown only on a shot |
| Players.Player.DoActions | lib/sprites/players.py:150-152 | the jump step and then the shoot step, each as above |
| Players.Player.Prepare | lib/sprites/players.py:155-164 | clip selected and hit timer updated before acting; then the actions; then the cooldown counts down, so a shot this frame leaves max(0, COOLDOWN_TIME − dt) |
| Players.Player.Update | lib/sprites/players.py:155-169 | all of `Prepare`, then the body is the given move step applied to the post-jump state; the player is dead iff it was, or the new x < −10, or the new y is below the map |
| Rules.Reversed | lib/sprites/enemies.py:28-34 | the reverse-trigger step of both the Knight and GAME.py's Sentry (GAME.py:66-72): no reverse cell: rect and direction unchanged; otherwise the direction is negated and the rect is clamped to the first cell: right edge on cell.left when it moved right, left edge on cell.right otherwise |
| Rules.FirstCellDecides | lib/sprites/enemies.py:28-34 | cells after the first have no effect: at most one reversal per update |
| Rules.ReversalFlipsDirection | lib/sprites/enemies.py:33 | a reversal maps a valid direction to the other valid direction |
| Enemies.Contact | lib/sprites/enemies.py:36-38 | an invincible or non-overlapping player is untouched; any other player gets the effect of exactly one hit |
| Enemies.ContactTwiceCountsOnce | lib/sprites/enemies.py:36-38 | repeating the contact in the same frame changes nothing more |
| Enemies.FifthHitKills | lib/sprites/base.py:25-28 | a fresh player (health 5, defense 1) hit by Knights (attack 1) is alive with positive health after up to 4 hits and dead with health exactly 0 after the fifth |
| Enemies.Knight.constructor | lib/sprites/enemies.py:14-22 | facing right, walking, x multiplier 1, not dead, not hit; the rect is at the location with the image's size |
| Enemies.Knight.Hit | lib/sprites/base.py:22-28 | the target's health, hit timer and death flag become those of one hit with the Knight's attack |
| Enemies.Knight.Update | lib/sprites/enemies.py:25-38 | rect and direction are the reversal of the moved rect; every player then has the vitals of one contact with the post-reversal rect |
| Objects.Collided | lib/sprites/objects.py:38 | the overlapping enemies exactly, each with its group position, in group order |
| Objects.Sort | lib/sprites/objects.py:45 | the sort is a permutation of its input |
| Objects.SortStable | lib/sprites/objects.py:45 | sorting a collision list by x is ordered by x and, among equal x, by the original order (Python's stable sort) |
| Objects.Nearest | lib/sprites/objects.py:45-49 | the chosen enemy is one of the collided ones |
| Objects.NearestRight | lib/sprites/objects.py:45-47 | moving right, the chosen enemy has minimal x and is the earliest of the enemies with that x |
| Objects.NearestLeft | lib/sprites/objects.py:48-49 | moving left, the chosen enemy has maximal x and is the latest of the enemies with that x |
| Objects.RemoveAt | lib/sprites/objects.py:47 | `kill()` of one group member: the group minus that member, others in order |
| Objects.RemoveAtRemovesOne | lib/sprites/objects.py:47 | the survivors plus the killed enemy are the group as a multiset |
| Objects.HitKillsExactlyOne | lib/sprites/objects.py:39-41 | with at least one overlap, the killed enemy overlaps the bullet and exactly one enemy leaves the group |
| Objects.MissKillsNone | lib/sprites/objects.py:38-39 | the collision list is empty iff no enemy overlaps |
| Objects.Bullet.constructor | lib/sprites/objects.py:14-28 | lifespan 1; moving right puts the top-left at the location, otherwise the right edge at location.x with the same top; the direction is kept |
| Objects.Bullet.KillNearest | lib/sprites/objects.py:43-49 | the survivors are the group with the nearest collided enemy removed |
| Objects.Bullet.Update | lib/sprites/objects.py:30-41 | lifespan drops by dt; below 0 the bullet dies without moving or testing; else it moves; with no overlap nothing dies; with an overlap the nearest enemy and the bullet die |
| Monolith.ResolveStaysOnPath | GAME.py:227-240 | corrections only pull the rect back along its move: each coordinate ends between its pre-move and moved values, and the size is kept |
| Monolith.CellStepOnPath | GAME.py:229-240 | the same for one cell's four tests |
| Monolith.RestingAfterLanding | GAME.py:233-237 | starting not resting, a sprite that ends resting has dy >= 0 and its double jump restored |
| Monolith.RestingIffLanded | GAME.py:225-237 | after the loop the sprite rests iff a 't' correction fired for some cell |
| Monolith.Landing | GAME.py:233-237 | when 't' fires: resting, double jump cleared, bottom on cell.top, dy = GRAVITY·dt |
| Monolith.LeftCorrection | GAME.py:229-230 | an 'l' correction puts the right edge on cell.left, never left of the pre-move right edge, and no later cell with the same left can fire again |
| Monolith.RightCorrection | GAME.py:231-232 | an 'r' correction puts the left edge on cell.right, never right of the pre-move left edge, and no later cell with the same right can fire again |
| Monolith.HeadBump | GAME.py:238-240 | a 'b' correction puts the top on cell.bottom and sets dy to 0, leaving resting alone |
| Monolith.Fall | GAME.py:221 | the new dy is min(MAX_FALL_SPEED, dy + GRAVITY·dt) |
| Monolith.Moved | GAME.py:219-223 | the move before corrections keeps the size |
| Monolith.WalkDirection | GAME.py:219 | standing still keeps x; walking moves x toward the facing side by at most SPEED·dt |
| Monolith.Player.constructor | GAME.py:125-167 | not resting, not dead, cooldown 0, double jump unused, health MAX_HEALTH (2), facing right still, no requests, dy 0, rect at the location |
| Monolith.Player.Animate | GAME.py:170-181 | the current clip is the table's clip for direction and moving |
| Monolith.Player.TryToJump | GAME.py:185-195 | the new jump state and the outcome are `Rules.TryToJump` of the old state; jumps exactly under the jump gating; clears the request; dy and double-jump flag as the gating says |
| Monolith.Player.TryToShoot | GAME.py:198-204 | the new shoot state and the shot are `Rules.TryToShoot` of the old state; shoots iff requested with cooldown 0; clears the request; starts the cooldown only on a shot |
| Monolith.Player.DoActions | GAME.py:206-208 | the jump step then the shoot step |
| Monolith.Player.Block | GAME.py:227-240 | the body after the blocker loop is `Resolve` of the cells in query order |
| Monolith.Player.BlockLeft | GAME.py:229-230 | one 'l' test against the pre-move rect |
| Monolith.Player.BlockRight | GAME.py:231-232 | one 'r' test against the pre-move rect |
| Monolith.Player.BlockTop | GAME.py:233-237 | one 't' test: a landing sets resting, double jump, bottom and dy |
| Monolith.Player.BlockBottom | GAME.py:238-240 | one 'b' test: the top on the cell's bottom and dy 0 |
| Monolith.Player.Move | GAME.py:218-244 | cooldown counted down; dy clamped by gravity; moved and resting cleared; then the blocker loop; dead iff it was, or x < −10, or y below the map |
| Monolith.Player.Update | GAME.py:210-244 | clip selected, actions taken, then `Move` from the post-action state; a shot fired now leaves the cooldown at max(0, 0.5 − dt) |
| Monolith.Sentry.constructor | GAME.py:54-57 | rect at the location, direction 1 |
| Monolith.Sentry.Update | GAME.py:59-77 | x moves by the truncated patrol step; then `Rules.Reversed` at the first reverse cell; an overlapped player is drained, others untouched |
| Monolith.Drain | GAME.py:74-77 | health drops by exactly dt; the player is dead iff it was or health is now below 0 |
| Monolith.DrainOverFrames | GAME.py:74-77 | over frames of contact health drops by the total time and death, once set, stays |
| Monolith.TwoSecondsOfContact | GAME.py:74-77 | a fresh player (health 2) dies from contact iff the contact lasts more than 2 seconds in total |
| Monolith.Survivors | GAME.py:44 | only enemies that do not overlap are kept, every such enemy is kept, and none is lost iff none overlaps |
| Monolith.SurvivorsConcat | GAME.py:44 | the kill keeps the layer's order: the survivors of two runs of enemies are each run's survivors in turn |
| Monolith.SurvivorsCount | GAME.py:44 | each non-overlapping enemy survives as many times as it is in the layer, and no overlapping one survives |
| Monolith.SurvivorsOfOne | GAME.py:44 | one enemy survives iff it does not overlap; with `SurvivorsConcat` this makes the kill the order-preserving filter |
| Monolith.Bullet.constructor | GAME.py:25-35 | a positive direction puts the top-left at the location, otherwise the right edge at location.x; lifespan LIFESPAN |
| Monolith.Bullet.Update | GAME.py:37-46 | lifespan drops by dt; below 0 the bullet dies without moving or testing; else it moves by the truncated step, every overlapping enemy is removed, and the bullet dies iff one overlapped |
| Monolith.EventRules | GAME.py:284-319 | Quit and Escape end the frame; arrow presses walk that way; releasing one arrow walks the other way if it is held, else stops; space requests a jump; left shift a shot; other keys change nothing |
| Monolith.QuitStopsTheFrame | GAME.py:284-287 | events after a Quit are never handled |
| Monolith.HandleEvents | GAME.py:284-319 | the player's controls become the events applied in order; the frame returns iff a Quit or Escape arrived |
| Monolith.LevelMenuChoice | GAME.py:362-368 | Escape, and Return on the 'Back' entry, give the default level; Return on entry i gives level i; other keys return nothing |
| Platformer.DirectionKeys | game.py:57-84 | pressing a player's left or right key walks that way; releasing one walks the other way if that key is held, else stops without turning |
| Platformer.ActionKeys | game.py:63-86 | jump key requests a jump; shoot key requests a shot and runs (1.5), its release stops running (1.0); the invincible key toggles, so two presses restore |
| Platformer.OtherKeysIgnored | game.py:53-86 | an event matching none of a player's keys leaves that player unchanged |
| Platformer.SharedInvincibleKey | lib/keymap.py:12-13 | both key maps bind five distinct keys; K_i toggles both players; each player's movement keys leave the other player alone |
| Platformer.ApplyKeyKeepsValid | game.py:53-86 | direction stays LEFT or RIGHT and moving STILL or WALKING |
| Platformer.DispatchQuits | game.py:141-149 | a frame ends the game iff some event is Quit or Escape |
| Platformer.DispatchStopsAtQuit | game.py:141-149 | events after the first Quit or Escape are never dispatched |
| Platformer.React | game.py:56-86 | one player's controls become `ApplyKey` of its own key map; its direction and moving stay valid |
| Platformer.Game.constructor | game.py:115-119 | one player with the first key map, and a second with the second key map only when the count is 2; all at the start cell with full health |
| Platformer.Game.ChangeState | game.py:53-86 | every player, independently, reacts to the event through its own key map |
| Platformer.Game.HandleEvents | game.py:141-149 | each player's controls are the frame's events up to the first Quit or Escape applied in order; returns iff such an event arrived |
| Platformer.Game.EndOfTick | game.py:154-172 | the tick dies iff some player is dead, and then the exit is not checked; otherwise level_beaten becomes true only on an 'exit' level with some player on an exit cell; a missing 'type' never sets it |
| Menus.Wrap | lib/menu.py:70-74 | a move from any selection lands in [0, n) |
| Menus.WrapEnds | lib/menu.py:72-74 | +1 from n−1 gives 0 and −1 from 0 gives n−1 |
| Menus.WrapSteps | lib/menu.py:71-74 | away from the ends, ±1 moves by one |
| Menus.WrapInverse | lib/menu.py:69-74 | down then up, or up then down, returns to the same entry |
| Menus.FieldAt | lib/menu.py:95-106 | field i is at left p, top p + (2p + h)·i, with its own size; its highlight is that rect grown by p on every side |
| Menus.MaxWidthIsMax | lib/menu.py:107-108 | menu_width ends as the maximum of its prior value and every highlight width |
| Menus.LayoutFields | lib/menu.py:89-106 | the layout has one field per item and field i is `FieldAt` of item i |
| Menus.PrefixStep | lib/menu.py:89-109 | one more item appends one field, adds its highlight height, and widens menu_width when larger |
| Menus.UniformHeightSum | lib/menu.py:109 | with equal text heights h, menu_height is n·(h + 2p) |
| Menus.HighlightsTile | lib/menu.py:95-109 | with equal text heights, the highlights are stacked from 0 one after another, each inside menu_height and no wider than menu_width |
| Menus.HighlightsAbut | lib/menu.py:99-106 | each highlight starts where the one above it ends |
| Menus.HighlightRows | lib/menu.py:99-106 | highlight i is at (2p + h)·i with height 2p + h |
| Menus.Menu.constructor | lib/menu.py:25-37 | the class defaults: font size 32, no fields, selection 0, size 0 |
| Menus.Menu.SetFontsize | lib/menu.py:53-54 | the font size is set |
| Menus.Menu.Draw | lib/menu.py:69-83 | a zero shift keeps the selection; a nonzero one wraps it; the result is the selection, within range |
| Menus.Menu.Init | lib/menu.py:62-109 | the items and their count are kept; the fields are the layout; menu_height is reset and summed; menu_width is the max of its prior value and the highlight widths |
| Menus.LevelMenuKey | lib/menu.py:176-187 | up and down stay within the entries; space or return on 'Back', and escape, give the default level; space or return on entry i gives level i; other keys change nothing |
| Menus.EveryLevelReachable | lib/menu.py:176-185 | every level is chosen by pressing down i times and then return |
| Menus.PlayerMenuKey | lib/menu.py:205-219 | space or return gives '1', '2' or the unchanged player count by entry; escape gives it unchanged; other keys change nothing |
| Mainloop.Moved | structured_mainloop.py:17-24 | the key shifts keep the frog's size |
| Mainloop.AxisMoves | structured_mainloop.py:17-24 | with no key on an axis that coordinate is kept; with one held, it moves by SPEED·dt that way, within a pixel of truncation |
| Mainloop.OppositeKeysCreep | structured_mainloop.py:17-20 | holding left and right together can still move the frog a pixel left, as the two truncations do not cancel |
| Mainloop.Touching | structured_mainloop.py:26 | exactly the walls the frog overlaps, and none iff it overlaps none |
| Mainloop.StepAvoidsWalls | structured_mainloop.py:26-27 | a frog clear of the walls is never moved onto one |
| Mainloop.StepStaysOrMoves | structured_mainloop.py:14-27 | the frog ends at the old or the moved rect, and at the moved one iff it overlaps no wall; how many walls overlap does not matter |
| Mainloop.Player.constructor | structured_mainloop.py:7-10 | the frog starts at (320, 240) with the image's size |
| Mainloop.Player.Update | structured_mainloop.py:12-27 | the new rect is the step: moved by the keys, back to the copy when a wall overlaps |
| Mainloop.BuildWalls | structured_mainloop.py:39-44 | the nested loops build `Grid`, column by column and top to bottom |
| Mainloop.ColumnFacts | structured_mainloop.py:40-44 | one column's walls are on that column, on grid rows, on the border, top to bottom, and all its border rows are there |
| Mainloop.GridShape | structured_mainloop.py:39-44 | every wall is a border grid point with the chest's size; the count for m columns |
| Mainloop.GridComplete | structured_mainloop.py:39-44 | every border grid point has a wall |
| Mainloop.GridOrdered | structured_mainloop.py:39-40 | walls come by column, then by row |
| Mainloop.BorderWalls | structured_mainloop.py:39-44 | 66 walls, one per border grid point (x in {0, 608} or y in {0, 448}) and no two at the same point |
| Images.ExpectedDeterminesKey | lib/images.py:6-14 | different keys give different images; the options are part of the key |
| Images.ScaleBeforeConvert | lib/images.py:10-13 | with both options the file is scaled and then converted; with neither it is the loaded file |
| Images.LoadFile | lib/images.py:9 | the loader makes a new surface of the file |
| Images.Scale | lib/images.py:11 | scaling makes a new surface |
| Images.Convert | lib/images.py:13 | converting makes a new surface |
| Images.ImageCache.constructor | lib/images.py:3-4 | the cache starts empty and nothing is loaded |
| Images.ImageCache.Load | lib/images.py:5-16 | a hit returns the stored surface itself and calls no loader; a miss calls the loader once and stores the result under exactly that key; entries are never replaced or removed |
| Images.Demo | lib/images.py:21-31 | `bamboo is bamboo2` and `bg1 is bg2`, the two differ, and the loader runs twice |

## Left out

- Rendering, audio and animation playback are left out: drawing, blitting, where each lifebar is drawn (`game.py:190`, `game.py:201`), `display.flip`, `set_focus`, pyganim `play`/`stop`/frames and `Sound.play`. They are foreign side effects. A clip choice is kept as a value.
- The frame loops, the clock and `beat_level`'s grace period are left out, being I/O-driven. So are `main_menu`, `options_menu`, the menus' own event loops and `lib/my_menu.py`. What is kept is the per-event and per-tick rules they apply.
- The tmx loader and pygame.sprite internals are not part of this model. `collide`, `find` and `spritecollide` are input sequences. `colliderect` is `Geometry.Overlaps`.
- The inherited `move` and `AffectedByGravitySprite` are not part of this model: no file shown defines them. `Players.Player.Update`, `Enemies.Knight.Update` and `Objects.Bullet.Update` take the move step as a function parameter.
- `lib/sprites/players.py:146` builds a `Bullet` without the image path that `lib/sprites/objects.py:14` requires. `Players.Player.TryToShoot` returns the shot's origin and direction instead of building a sprite.
- `images.load(..., flip=...)` at `lib/sprites/objects.py:17` and `lib/sprites/enemies.py:21` passes an argument `lib/images.py:5` does not accept. The sprites' images are not modelled.
- `game.py:66` sets `x_multiplier`, while `lib/sprites/players.py:86` sets `running`. The model keeps both fields, and `x_multiplier` is absent until the shoot key is first pressed.
- `get_settings` and `get_clargs` are left out, being file, configparser and argv I/O.
- `player_menu` returns the strings '1' and '2', while `game.py:118` compares the count with the integer 2. The two are kept as written; the menu is not wired to the game.
- Floating point is not modelled: times, health and speeds are exact reals, with no rounding. Only the float-to-int truncations are explicit.
- Menu centring (`lib/menu.py:110-113`) is left out because it is float division for display. So are `move_menu`, `set_colors` and `set_font`, which only change drawing.
- `keymap.py` and `lib/keymap.py` are plain records of key codes and become `Input.KeyMap`, with no operations of their own.
- Menus.Menu.Draw: requires an in-range selection when the shift is 0, and at least one field. The source would index an empty or out-of-range field list there. `Init` does not reset the selection, as in the source.
- Rules.LifebarFill: states the full and empty ends and the range, not the linear formula itself.
- Monolith.LevelMenuChoice: covers only Return and Escape. The Up and Down keys move the menu's selection and belong to `Menus.Menu.Draw`.
- Concurrency: there is none in the source.
