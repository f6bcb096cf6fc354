# Homework board model

A Dafny model of the homework board of the mobinogi checklist page
(`app/page.tsx`). The board has eight tabs: the weekly list "주간" and the
seven weekdays "월" to "일". Each tab holds an ordered list of tasks, and each
task has an id, a display name and a `done` flag. Clicking a task's card runs
`toggleDone(day, id)`. That builds a new board in which every task of `day`'s
list with that id has its `done` flag negated. The page then replaces its
state with the new board.

Everything is in `homework_board.dfy`, module `HomeworkBoard`:

- `DayKey` is a closed datatype of the eight tab keys. `Label` gives the
  string each key is in the page, and `Days` / `DayLabels` are the tab list.
- `Task` is a datatype. `TaskMap` is a `map<DayKey, seq<Task>>`. The
  page's record type guarantees that every key is present (`HasEveryDay`).
- `InitialBoard` is the starting board, written out with the same ids,
  names and flags as the page.
- `ToggleTask`, `ToggleList` and `ToggleDone` are the click handler. They
  are pure functions from the old board to the new one, as in the page,
  which builds a fresh object and never mutates the old one.
- `Replay` applies a sequence of clicks one after another. It models the
  page's state as it evolves through repeated `setTasks(toggleDone(..))`
  calls.

The code has no reset operation and no error path. An unknown
id is a silent no-op, and the model proves exactly that
(`ToggleDoneNoOpIffAbsent`).

## Model

| member | source | states |
|---|---|---|
| `HomeworkBoard.LabelInjective` | app/page.tsx:10 | Two tab keys have the same label string exactly when they are the same key, so the closed datatype matches the string union of the page. |
| `HomeworkBoard.DaysListEveryKeyOnce` | app/page.tsx:20 | The tab list has eight entries, names every key exactly once, and its labels are, in order, "주간", "월", "화", "수", "목", "금", "토", "일". |
| `HomeworkBoard.WeekdayTasks` | app/page.tsx:31-37 | A weekday's initial list has five tasks with ids base+1 to base+5, in that order, all not done. |
| `HomeworkBoard.InitialBoard` | app/page.tsx:22-80 | The initial board has a list for every key: six weekly tasks and five tasks on each weekday, and no task starts done. |
| `HomeworkBoard.InitialBoardIdsDistinct` | app/page.tsx:22-80 | No two tasks of the initial board share an id, neither within a tab nor across tabs. |
| `HomeworkBoard.ToggleTask` | app/page.tsx:89 | The per-task step keeps the id and the name. It negates `done` when the id matches and leaves it alone otherwise. |
| `HomeworkBoard.ToggleList` | app/page.tsx:89 | Mapping the step over a list keeps its length, order, ids and names. Every task whose id matches is flipped, not only the first. Every other task is returned unchanged. |
| `HomeworkBoard.ToggleDone` | app/page.tsx:86-92 | The new board has the same tabs. Every other tab's list is identical. In `day`'s list each position keeps its id and name, its `done` is negated exactly when its id matches, and tasks with a different id are unchanged. |
| `HomeworkBoard.ToggleDoneInvolution` | app/page.tsx:89 | Toggling the same day and id twice gives back the original board. |
| `HomeworkBoard.ToggleDoneNoOpIffAbsent` | app/page.tsx:89 | The toggle returns a board equal to its input if and only if no task in `day`'s list has the id. |
| `HomeworkBoard.ToggleDoneFlipsOneCard` | app/page.tsx:89 | When the ids of `day`'s list are distinct and position k holds the id, the toggle flips that task and leaves every other position unchanged. |
| `HomeworkBoard.ToggleDoneKeepsBoard` | app/page.tsx:87-89 | A toggle keeps a list for every key, and it keeps ids distinct across the board when they were distinct before. |
| `HomeworkBoard.ToggleListCommutes` | app/page.tsx:89 | Mapping the step over a list for two ids gives the same list in either order. |
| `HomeworkBoard.ToggleDoneCommutes` | app/page.tsx:86-92 | Two toggles, on any days and ids, give the same board in either order. |
| `HomeworkBoard.Replay` | app/page.tsx:84-91 | After any sequence of clicks the board has the same tabs, and each tab's list has the same length, order, ids and names as before. |
| `HomeworkBoard.ReplayParity` | app/page.tsx:86-92 | After any sequence of clicks a task's `done` equals its starting value exactly when its card was clicked an even number of times. |
| `HomeworkBoard.ReplayFromInitialBoard` | app/page.tsx:22-92 | Starting from the initial board, a task is done exactly when its card was clicked an odd number of times, and ids stay unique across the whole board after any clicks. |

## Left out

- React rendering, the `useState` hooks and the MUI `Tabs`/`Card` components, icons and `clsx` styling (app/page.tsx:3-8, 94-138). These are presentation code and calls into libraries. The state replacement through `setTasks` is modelled as returning the new board.
- Tab selection (`selectedDay`, app/page.tsx:83, 100). It is UI state with no logic beyond assignment. A click is modelled as the pair of its tab and task id.
- The "no tasks" message branch (app/page.tsx:113, 134). It is display only.
- Task names are carried as opaque strings. No logic reads them.
- Task ids are JavaScript numbers compared with `===`. The model uses mathematical integers, so fractional ids and `NaN` (which never equals itself) are not modelled. Every id on the page is a small integer.
