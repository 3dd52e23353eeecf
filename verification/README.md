# Children's mini-games: shogi, othello, drawing history and translations in Dafny

This project models four pieces of a set of browser mini-games and proves
properties of them:

- **Shogi** (`shogi_game.js`). This is the rule engine: the fourteen piece types and the promotion tables, move generation per piece type, and promotion rules (may and must promote). It also covers drops and the two-pawns-on-a-file rule (nifu), check and checkmate, and the human player's move and drop with the capture-to-hand bookkeeping. Then come the hand-over of the turn with its check and checkmate announcement, and the greedy computer opponent, which scores every legal action and plays one of the best. Modules: `ShogiPieces`, `ShogiBoard`, `ShogiMoves`, `ShogiRules`, `ShogiGame`, `ShogiAi`.
- **Othello** (`othello.js`). This covers the starting position, the discs a move flips along the eight directions, and playing a move. It also covers the disc counts, whether a colour has a move, the end of the game with its winner, and the computer's choice of move. Module: `Othello`.
- **Drawing canvas history** (`games/drawing/script.js`). This is the undo and redo stacks. Saving is capped at 20 snapshots, and starting a stroke saves. Finishing a stroke, placing a stamp or clearing the canvas empties the redo stack. A button is disabled exactly when its stack is empty. Module: `DrawingHistory`.
- **Translations** (`assets/js/i18n.js`). This covers picking the language from the browser's language tag and looking up a dotted key, with English as the fallback. It also covers filling `{{name}}` placeholders in a single left-to-right pass, and the list of supported languages. Module: `I18n`.

Shared modules:

- `Wrappers` has `Option` and `Result`.
- `Seqs` has filtering, index search, removing the first occurrence, flattening and distinctness.
- `Grid` has positions, directions, walks, n x n grids with get and set (and `Put`, which sets one square of an n x n board), and counting of cells.

Boards are immutable sequences, and operations are pure functions. A refused action returns an error value that says why, rather than leaving a message on the page. Randomness becomes a parameter: the shogi computer takes `pick`, the draw that chooses among equally good actions. The browser's language tag, the stored language and the loaded translation tables are parameters too. A canvas snapshot is an abstract value of a type parameter.

The model follows the code as it is written except in two places where the code does something evidently unintended. They are listed under Findings. For each, both the as-written and the corrected definitions are given, and the rest of the model uses the corrected one. One of them is move generation for a promoted rook or bishop, so everything built on the move generator departs from the code when such a piece is on the board; see Left out.

## Model

| member | source | states |
|---|---|---|
| ShogiPieces.PromotionBijective | shogi_game.js:44-54 | The promotion table and the un-promotion table are inverse to each other. The promotable types are exactly the unpromoted types other than king and gold. |
| ShogiPieces.Effective | shogi_game.js:88-91 | A piece flagged promoted whose type has a promoted form moves as that promoted form, which un-promotes back to the stored type. Any other piece moves as its stored type. |
| ShogiPieces.CanPromote | shogi_game.js:182-183 | An already promoted piece, a king, a gold or a promoted type may never promote. An unpromoted promotable piece may promote exactly when it starts or ends in the mover's three-row promotion zone. |
| ShogiPieces.MustPromote | shogi_game.js:184 | Promotion is forced exactly for a pawn or lance reaching the last rank, or a knight reaching one of the last two. A forced promotion lies in the zone and is always allowed for an unpromoted piece. |
| ShogiBoard.KingPosition | shogi_game.js:72 | The result is the first square in row-major order that holds the player's king. It is absent exactly when the board has no such king. |
| ShogiMoves.RaySpec | shogi_game.js:77 | A sliding walk yields exactly the squares `k` steps away whose path is clear, up to the first occupied square. That square is included only when it holds an opponent piece. |
| ShogiMoves.RayIsSlides | shogi_game.js:81-82 | The eight-step ray of a rook or bishop direction is exactly the set of squares it slides to. |
| ShogiMoves.KeepTargets | shogi_game.js:101-104 | The filter keeps exactly the candidates that are on the board and not occupied by the mover's own piece. |
| ShogiMoves.StepMoves | shogi_game.js:76-85 | These are the pawn, knight, silver, gold, king and gold-moving promoted pieces. Each moves exactly to the squares of its offset pattern that are on the board and free of its own pieces. The patterns are mirrored for Gote, and gold's pattern omits the two backward diagonals. |
| ShogiMoves.SliderMoves | shogi_game.js:77-82 | Lance, bishop, rook, promoted bishop and promoted rook move exactly by clear slides in their directions, plus the one-step extras of the promoted bishop and rook, onto squares free of their own pieces. |
| ShogiMoves.ValidMoves | shogi_game.js:87-105 | Every generated target is on the board and not occupied by the mover's own piece. This is the corrected generator; see Findings. |
| ShogiMoves.ValidMovesAsWritten | shogi_game.js:89-94 | As written, a promoted rook or promoted bishop gets no moves at all. Every other piece gets exactly the corrected moves. |
| ShogiMoves.DragonStuckAsWritten | shogi_game.js:89-101 | A promoted rook alone in the middle of an empty board has no move as written. In the corrected generator it can step forward. |
| ShogiMoves.MustPromoteIffStuck | shogi_game.js:76-78 | An unpromoted pawn, lance or knight is forced to promote on a square exactly when, even on an empty board, it would have no move from there. |
| ShogiMoves.MovesSameOccupancy | shogi_game.js:87-105 | Move generation depends only on which squares are occupied and by whom. |
| ShogiRules.MoveOnBoard | shogi_game.js:190 | A move puts the mover, promoted if asked, on the target and empties the origin. Every other square is unchanged. |
| ShogiRules.IsValidDrop | shogi_game.js:185 | A drop is valid exactly when the square is empty, the dropped piece would not be forced to promote there, and a pawn is not dropped on a file holding one of the player's unpromoted pawns. |
| ShogiRules.DropKeepsNoNifu | shogi_game.js:185 | A valid drop never produces two unpromoted pawns of one player on a file. |
| ShogiRules.InCheck | shogi_game.js:107 | A player is in check exactly when an opponent piece can move onto the first king found. A player without a king is never in check. |
| ShogiRules.PromotionKeepsCheck | shogi_game.js:107 | Whether the moved piece is promoted or not makes no difference to whether the mover is then in check. |
| ShogiRules.IsCheckmate | shogi_game.js:108 | Checkmate holds exactly when the player is in check and no move (promoted when promotion is allowed) and no valid drop from hand ends the check. |
| ShogiRules.CheckmateIffNoReply | shogi_game.js:108 | Checkmate holds exactly when the player is in check and every move, whether promoted or not, and every valid drop leaves the player in check. |
| ShogiBoard.LayoutComposition | shogi_game.js:110 | A board laid out as the start holds exactly two full sets: for each side one king, rook and bishop, two golds, silvers, knights and lances, and nine pawns, nothing promoted, and 41 empty squares. |
| ShogiBoard.InitialComposition | shogi_game.js:110 | The starting layout holds exactly those two full sets. |
| ShogiBoard.LayoutPlacement | shogi_game.js:110 | In the starting layout a square holds a side's king exactly when it is the middle of that side's back rank, and a side's pawns all stand on its third rank. |
| ShogiBoard.LayoutKing | shogi_game.js:110 | The king search finds Sente's king on (8,4) and Gote's on (0,4). |
| ShogiGame.LayoutFacts | shogi_game.js:110 | A board in the starting layout has 40 pieces, the two full sets, the kings on their starting squares, and no file with two pawns of one side. |
| ShogiGame.NewGame | shogi_game.js:110 | A new game has empty hands, Sente to move, no announcement and the chosen mode. |
| ShogiGame.NewGamePieces | shogi_game.js:110 | A new game has 40 pieces in all. |
| ShogiGame.NewGameKings | shogi_game.js:110 | In a new game Sente's king is found on (8,4) and Gote's on (0,4). |
| ShogiGame.NewGameNoNifu | shogi_game.js:110 | A new game has no file with two unpromoted pawns of one side. |
| ShogiGame.SwitchPlayer | shogi_game.js:191 | The turn passes. The game is over exactly when the new side to move is checkmated, and then the previous mover wins. Otherwise "check" is announced exactly when that side is in check. Board and hands are unchanged. |
| ShogiGame.HumanPromotes | shogi_game.js:190 | A human move promotes only when promotion is allowed, and then exactly when it is forced or the player accepts. |
| ShogiGame.HumanMoveEffects | shogi_game.js:190 | An accepted human move came from the mover's own piece to one of its valid targets. It lands the piece promoted as decided and empties the origin, and no other square changes. A captured piece's base type goes to the end of the mover's hand, and the opponent's hand is untouched. The mover is not in check, the turn passes, the piece total is conserved, and the game is over exactly when the new side is checkmated. |
| ShogiGame.HumanDropEffects | shogi_game.js:190 | An accepted drop was a valid drop of a piece in hand. An unpromoted piece of the mover's stands on the target, no other square changes, and the first such entry leaves the mover's hand, the others keeping their order. The mover is not in check, the turn passes, the piece total is conserved, and the game is over exactly when the new side is checkmated. |
| Seqs.RemoveFirst | shogi_game.js:190 | Removing a hand entry takes out the first occurrence and keeps the rest in order. Without an occurrence the hand is unchanged, as with `findIndex` returning -1. |
| ShogiGame.SelfCheckMoveRefused | shogi_game.js:190 | A move is refused for self-check exactly when it is otherwise acceptable and the resulting board leaves the mover in check. |
| ShogiAi.MovesOver | shogi_game.js:188 | The computer's move candidates from one square are exactly the valid targets whose move does not leave Gote in check. Each candidate promotes whenever promotion is allowed and carries its score. |
| ShogiAi.ActionsSpec | shogi_game.js:188 | The candidate list holds exactly the legal moves of Gote's pieces and the legal drops of pieces in Gote's hand. |
| ShogiAi.MaxScore | shogi_game.js:188 | The best score bounds every candidate's score and is attained by one. |
| ShogiAi.Best | shogi_game.js:188 | The best list holds exactly the candidates with the best score. |
| ShogiAi.Choose | shogi_game.js:188 | The chosen action is a candidate that no candidate outscores. |
| ShogiAi.ChooseCoversBest | shogi_game.js:188 | Every best-scoring candidate is chosen by some draw. |
| ShogiAi.ApplyAction | shogi_game.js:188 | This is the corrected application. For a move, the moved piece keeps its type and owner and is promoted exactly when it already was or the action promotes, so a promoted piece stays promoted. The origin is emptied, no other square changes, and a captured piece's base type goes to the end of Gote's hand. For a drop, an unpromoted Gote piece of the dropped type stands on the target, no other square changes, and the first such entry leaves Gote's hand, the others keeping their order (nothing leaves when there is none). Sente's hand, the turn and the announcement are untouched. |
| ShogiAi.ApplyActionAsWritten | shogi_game.js:188 | As written, the moved piece's promotion flag becomes the action's flag, whatever it was before. |
| ShogiAi.AiTurnEffects | shogi_game.js:188 | With no candidate the state is unchanged. Otherwise the computer plays a legal action that no legal action outscores, with the board and Gote's hand as that action's application leaves them. Gote is not left in check, Sente's hand is untouched, the piece total is conserved, and the turn passes. The game is over exactly when the new side to move is checkmated, and then the side that has just moved wins. |
| ShogiAi.PromotedPieceDemotedAsWritten | shogi_game.js:188 | A candidate move of an already promoted piece never carries the promotion flag. So as written the piece lands demoted; the corrected application keeps it promoted. |
| ShogiAi.TokinDemotedAsWritten | shogi_game.js:188 | A concrete case: a lone Gote tokin stepping from (4,4) to (5,4) lands as a plain pawn as written, and as a tokin when corrected. |
| Othello.RunLength | othello.js:196-204 | The walk along a direction counts exactly the unbroken run of opponent discs next to the square. |
| Othello.DirFlips | othello.js:198-211 | One direction contributes its opponent run, and only when the run is non-empty and closed on the board by one of the player's discs. |
| Othello.DirFlipsSpec | othello.js:196-211 | A disc is flipped along a direction exactly when it lies inside a bracket: a run of `k >= 1` opponent discs closed by one of the player's own. |
| Othello.BracketIsRun | othello.js:199-211 | A bracket is the whole opponent run, so each direction has at most one. |
| Othello.Flips | othello.js:186-187 | An occupied square flips nothing. |
| Othello.FlipsSpec | othello.js:186-213 | A disc is flipped exactly when the square played is empty and the disc lies inside a bracket along one of the eight directions. |
| Othello.FlipsAreOpponentDiscs | othello.js:190-211 | Every flipped disc is an opponent disc on one of the eight rays, and not the square played. |
| Othello.FlipsDistinct | othello.js:190-212 | No disc is listed twice. |
| Othello.FlipAll | othello.js:217-221 | Flipping sets exactly the listed squares to the mover's colour. |
| Othello.Play | othello.js:135-147 | A move is refused as occupied exactly when the square is occupied. It is refused for flipping nothing exactly when the square is empty and no disc would flip. |
| Othello.PlayFrame | othello.js:146-147 | A played move sets the square played and every flipped disc to the mover's colour, and leaves every other square as it was. |
| Othello.PlayCounts | othello.js:96-105 | After a move flipping `k` discs, the mover has `k + 1` more discs, the opponent `k` fewer, and there is one empty square fewer. |
| Othello.HasAnyValidMoves | othello.js:223-234 | A colour has a move exactly when some empty square would flip a disc. |
| Othello.Result | othello.js:240-249 | More discs wins. Equal counts are a draw. |
| Othello.InitialBoard | othello.js:23-46 | The start has White on (3,3) and (4,4), Black on (3,4) and (4,3), and every other square empty. |
| Othello.InitialScores | othello.js:43-46 | The start has two discs of each colour. |
| Othello.InitialMove | othello.js:114 | Black, who moves first, can play (2,3), flipping (3,3). |
| Othello.InitialNotOver | othello.js:236-238 | The game is not over at the start. |
| Othello.AiMove | othello.js:257-276 | The computer plays only when its best move flips at least one disc. It then plays the first empty square in row-major order with the largest flip count, and that move is accepted. When it does not play, no empty square flips anything. |
| DrawingHistory.NewCanvas | games/drawing/script.js:319-323 | Once the page has loaded, the blank picture is shown and has been saved once. So undo is available and brings back the blank picture, and there is nothing to redo. |
| DrawingHistory.Save | games/drawing/script.js:119-125 | Saving pushes the current picture. When the stack already holds 20, the oldest is dropped first, so the size grows by one only below the cap. |
| DrawingHistory.Undo | games/drawing/script.js:127-134 | With nothing to undo nothing changes. Otherwise the top snapshot is shown and the current picture goes on the redo stack, keeping the total number of snapshots. |
| DrawingHistory.Redo | games/drawing/script.js:136-143 | This mirrors undo: with nothing to redo nothing changes. Otherwise the top redo snapshot is shown and the current picture goes on the undo stack, with no cap applied. |
| DrawingHistory.RedoMirrorsUndo | games/drawing/script.js:127-143 | Redo is undo with the two stacks swapped. |
| DrawingHistory.UndoThenRedo | games/drawing/script.js:127-143 | Undo followed by redo restores the picture and both stacks. |
| DrawingHistory.RedoThenUndo | games/drawing/script.js:127-143 | Redo followed by undo restores the picture and both stacks. |
| DrawingHistory.UpdateButtons | games/drawing/script.js:154-157 | A button is disabled exactly when pressing it would change nothing. |
| DrawingHistory.Step | games/drawing/script.js:64-95 | Placing a stamp, finishing a stroke and clearing the canvas empty the redo stack. A plain press starts a stroke and keeps the redo stack. Moving or releasing outside a stroke changes nothing. |
| DrawingHistory.StepKeepsCap | games/drawing/script.js:119-125 | Every event other than redo keeps the undo stack within 20. |
| DrawingHistory.StrokeEffect | games/drawing/script.js:64-95 | A completed stroke saves the picture before it, shows the drawn picture and empties the redo stack. |
| DrawingHistory.RedoCanExceedCap | games/drawing/script.js:136-143 | The cap is not an invariant: starting from a full undo stack, undo, then press on the canvas, then redo before releasing. This leaves 21 snapshots. |
| I18n.Split | assets/js/i18n.js:61 | Splitting gives at least one piece. The first piece is the text before the first separator. |
| I18n.SplitPiecesFree | assets/js/i18n.js:61 | No piece contains the separator. |
| I18n.JoinSplit | assets/js/i18n.js:61 | Joining the pieces with the separator gives the text back. |
| I18n.SplitAppend | assets/js/i18n.js:61 | Splitting two texts joined by the separator concatenates their splits. |
| I18n.DetectLanguage | assets/js/i18n.js:10-17 | The detected language is always supported. It is the part of the tag before the first '-' when that is a supported language, and English otherwise. |
| I18n.InitialLanguage | assets/js/i18n.js:4 | A stored non-empty choice wins. Otherwise the language detected from the browser's tag is used, which is always a supported one. |
| I18n.GetSupportedLanguages | assets/js/i18n.js:241-243 | The languages offered are English, then Japanese, and every detected language is one of them. |
| I18n.Walk | assets/js/i18n.js:64-70 | The empty path stays where it is, and nothing is found below a missing value. |
| I18n.WalkAppend | assets/js/i18n.js:64-70 | Walking a path is walking its first part and then the rest. |
| I18n.DottedKey | assets/js/i18n.js:61-70 | A key `p.q` resolves to whatever `q` resolves to from where `p` led. |
| I18n.Translate | assets/js/i18n.js:60-90 | A string found in the current language is filled in. A non-string found there gives the key. A path missing there is looked up afresh in English, whose string is filled in. When English lacks a string too, the result is the key. |
| I18n.FallbackIrrelevant | assets/js/i18n.js:64-81 | When the current language (not English) has the key, the English table has no influence. |
| I18n.TopLevelKey | assets/js/i18n.js:60-90 | A key without dots that names a string in the current table translates to that string, filled in. |
| I18n.PlaceholderShape | assets/js/i18n.js:93-97 | A placeholder is `{{`, one or more word characters, then `}}`. |
| I18n.NoPlaceholderUnchanged | assets/js/i18n.js:93-97 | Text without placeholders is returned unchanged. |
| I18n.UndefinedKept | assets/js/i18n.js:93-97 | Placeholders whose names have no parameter stay as they are. |
| I18n.NoParamsUnchanged | assets/js/i18n.js:60 | With no parameters (the default) the text is unchanged. |
| I18n.WholePlaceholder | assets/js/i18n.js:93-97 | A text that is exactly one placeholder with a parameter becomes that parameter's value. The value is inserted as it is and is not searched again. |

## Left out

- Rendering, DOM event wiring, CSS, images, alerts, console logging and timers are left out in all four games. They carry no game logic beyond the flows modelled here.
- Shogi selection handling is left out: selecting, reselecting and deselecting a square or a hand piece. These are UI state. The refusals that these clicks produce are modelled as `Rejection` values.
- `isAiThinking` and the 500 ms delay before the computer moves are timing and are left out.
- The shogi computer's random draw among equally scored actions (`Math.random`) is the parameter `pick`. Its uniformity is not modelled.
- Hand entries record the original owner of a captured piece (`originalPlayer`). Nothing reads that field, so hands are sequences of base piece types.
- ShogiRules.InCheck is built on the corrected move generator (see Findings). Whenever a promoted rook or bishop is on the board, it can differ from the source, where such a piece gives no check.
- ShogiRules.IsCheckmate also uses the corrected generator, both for the attacker's check and for the defender's replies. It differs from the source whenever a promoted rook or bishop is on the board.
- ShogiGame.HumanMove accepts moves of a promoted rook or bishop that the source refuses, and its self-check test uses the corrected generator.
- ShogiAi.Actions generates candidates with the corrected generator, so the computer's promoted rook or bishop has moves it lacks in the source, and check scoring can differ.
- `ShogiAi.AiTurn`: when the computer has no candidate, the source leaves the turn with Gote. The model returns the state unchanged, as the source does, and does not model the game then stalling.
- The values of promoted piece types in the scoring table are never consulted, because a captured piece is scored by its stored base type. The model scores base types only.
- Othello's turn flow after a move is left out. This is the switch of player, the pass alert when the next player has no move, and the call into the computer from `handleCellClick` and `aiMove`. Its ingredients are modelled: `Play`, `HasAnyValidMoves`, `GameOver`, `Result` and `AiMove`.
- Othello's `_placeDiscInternal` silently ignores squares off the board. Every caller passes an on-board square, so the model's `Grid.Put` requires one.
- `Othello.AiMove` only plays as White. The guard that the current player is White and the mode is player-versus-computer is left to the caller.
- Restoring a canvas snapshot goes through an image that loads asynchronously. The model shows the snapshot at once.
- Drawing tools, colours, brush size, the eraser and saving the picture as a file are left out. Strokes and stamps enter the model only as the picture they produce.
- Translation files are loaded with `fetch` and cached, with English as the fallback on failure. This is network I/O and is left out, so the loaded tables are a parameter. Storing the chosen language in local storage is I/O too. Changing the language and updating the page's text are DOM work.
- Translation tables hold objects, strings and other scalar values. Arrays are left out, and so are properties inherited from `Object.prototype`: in the source, a segment such as `toString` would find the inherited property.
- I18n.Interpolate, I18n.NoParamsUnchanged and I18n.UndefinedKept: parameters are a map from names to strings, so a name is defined only when it is in the map. The source tests `params[key] !== undefined` on an ordinary object whose default is `{}`. So a placeholder naming a property inherited from `Object.prototype` (`constructor`, `toString`, `valueOf`, `__proto__`) is replaced even when no such parameter was given. The model keeps such placeholders, and the two lemmas are stated for that map semantics.
- `I18n.DetectLanguage` takes the browser's language tag as a string. The case where the browser reports no language at all, where the source's `split` would throw, is not modelled.
- `I18n.Translate` takes parameters as strings. The source also accepts other values and converts them to text.

## Findings

| source | as written | input that shows it | evidently intended | confidence | as-written member | corrected member |
|---|---|---|---|---|---|---|
| shogi_game.js:89-94 | For a promoted rook or bishop, the lookup of the promoted symbol finds no move function, and `if(!moveFn) return []` returns before the slider branch at lines 98-101 is reached. | A promoted rook of Sente's on (4,4) of an otherwise empty board gets no moves, and such a piece never gives check. | The slider logic runs with its promoted one-step extras, as the comment at line 96 and the branch at lines 98-101 show. | not executed | ShogiMoves.ValidMovesAsWritten | ShogiMoves.ValidMoves |
| shogi_game.js:188 | The computer's move sets `pieceToMove.promoted = chosenAction.promotion`, and that flag is false for a piece that is already promoted. | A Gote tokin alone on the board, moving from (4,4) to (5,4), becomes a plain pawn. | The piece stays promoted, and promotes when the action promotes. | not executed | ShogiAi.ApplyActionAsWritten | ShogiAi.ApplyAction |
