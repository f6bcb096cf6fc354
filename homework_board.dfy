/** The homework board of the game-checklist page: eight tabs (the weekly list
    "주간" and the seven weekdays), each holding an ordered list of tasks whose
    completion flag the player flips by clicking the task's card.

    The page keeps the whole board as one value and replaces it wholesale on
    every click, so the board is modelled as a value and the click handler as
    a function from the old board to the new one. */
module HomeworkBoard {

  // ---------------------------------------------------------------------------
  // Tab keys
  // ---------------------------------------------------------------------------

  /** The eight tab keys. In the page each key is the tab's own label string;
      `Label` gives that string back. */
  datatype DayKey = Weekly | Mon | Tue | Wed | Thu | Fri | Sat | Sun

  /** The string that stands for a key in the page. */
  function Label(d: DayKey): string
  {
    match d
    case Weekly => "주간"
    case Mon => "월"
    case Tue => "화"
    case Wed => "수"
    case Thu => "목"
    case Fri => "금"
    case Sat => "토"
    case Sun => "일"
  }

  /** The order in which the tabs are shown. */
  const Days: seq<DayKey> := [Weekly, Mon, Tue, Wed, Thu, Fri, Sat, Sun]

  /** The page's own tab array, written out as literal strings on purpose:
      `DaysListEveryKeyOnce` proves it is `Label` applied to `Days`. */
  const DayLabels: seq<string> := ["주간", "월", "화", "수", "목", "금", "토", "일"]

  /** Distinct keys have distinct labels, so the datatype loses nothing of the
      string-keyed original. */
  lemma LabelInjective(a: DayKey, b: DayKey)
    ensures Label(a) == Label(b) <==> a == b
  {
  }

  /** The tab list names every key exactly once, and its labels are the page's. */
  lemma DaysListEveryKeyOnce()
    ensures |Days| == |DayLabels| == 8
    ensures forall d: DayKey :: d in Days
    ensures forall i, j :: 0 <= i < j < |Days| ==> Days[i] != Days[j]
    ensures forall i :: 0 <= i < |Days| ==> Label(Days[i]) == DayLabels[i]
  {
    forall d: DayKey
      ensures d in Days
    {
      match d
      case Weekly => assert Days[0] == d;
      case Mon => assert Days[1] == d;
      case Tue => assert Days[2] == d;
      case Wed => assert Days[3] == d;
      case Thu => assert Days[4] == d;
      case Fri => assert Days[5] == d;
      case Sat => assert Days[6] == d;
      case Sun => assert Days[7] == d;
    }
  }

  // ---------------------------------------------------------------------------
  // Tasks and the board
  // ---------------------------------------------------------------------------

  /** One checklist entry. `name` is display text only; no logic reads it. */
  datatype Task = Task(id: int, name: string, done: bool)

  /** The board: every tab key maps to the ordered task list of that tab. */
  type TaskMap = map<DayKey, seq<Task>>

  /** The board has a list for every tab key, as the page's record type demands. */
  predicate HasEveryDay(m: TaskMap)
  {
    forall d: DayKey :: d in m
  }

  /** Some task of the list carries the id. */
  predicate HasId(ts: seq<Task>, id: int)
  {
    exists i :: 0 <= i < |ts| && ts[i].id == id
  }

  /** No two tasks of the list share an id. */
  predicate DistinctIds(ts: seq<Task>)
  {
    forall i, j :: 0 <= i < j < |ts| ==> ts[i].id != ts[j].id
  }

  /** No two tasks anywhere on the board share an id. */
  predicate BoardIdsDistinct(m: TaskMap)
  {
    && (forall d :: d in m ==> DistinctIds(m[d]))
    && (forall d1, d2, i, j ::
          d1 in m && d2 in m && d1 != d2 && 0 <= i < |m[d1]| && 0 <= j < |m[d2]| ==>
            m[d1][i].id != m[d2][j].id)
  }

  /** Two lists hold the same tasks position by position, up to `done`. */
  predicate SameLayout(a: seq<Task>, b: seq<Task>)
  {
    && |a| == |b|
    && forall i :: 0 <= i < |a| ==> a[i].id == b[i].id && a[i].name == b[i].name
  }

  // ---------------------------------------------------------------------------
  // The initial board
  // ---------------------------------------------------------------------------

  /** The five tasks every weekday tab starts with; their ids are base+1 .. base+5. */
  function WeekdayTasks(base: int): (ts: seq<Task>)
    ensures |ts| == 5
    ensures forall i :: 0 <= i < 5 ==> ts[i].id == base + 1 + i && !ts[i].done
  {
    [ Task(base + 1, "물물 교환", false),
      Task(base + 2, "결계 2회", false),
      Task(base + 3, "검은 구멍 3회", false),
      Task(base + 4, "오전 알바", false),
      Task(base + 5, "오후 알바", false) ]
  }

  /** The board the page starts with. */
  function InitialBoard(): (b: TaskMap)
    ensures HasEveryDay(b)
    ensures |b[Weekly]| == 6
    ensures forall d :: d != Weekly ==> |b[d]| == 5
    ensures forall d, i :: d in b && 0 <= i < |b[d]| ==> !b[d][i].done
  {
    var b := map[
      Weekly := [ Task(11, "주간 재료 구매", false),
                  Task(12, "마물 증표 교환", false),
                  Task(13, "임무 게시판", false),
                  Task(14, "필드 보스", false),
                  Task(15, "어비스", false),
                  Task(16, "레이드", false) ],
      Mon := WeekdayTasks(20),
      Tue := WeekdayTasks(30),
      Wed := WeekdayTasks(40),
      Thu := WeekdayTasks(50),
      Fri := WeekdayTasks(60),
      Sat := WeekdayTasks(70),
      Sun := WeekdayTasks(80)
    ];
    assert forall d: DayKey :: d in b by {
      forall d: DayKey ensures d in b { EveryKeyIsNamed(d); }
    }
    b
  }

  /** Every key is one of the eight constructors. */
  lemma EveryKeyIsNamed(d: DayKey)
    ensures d in {Weekly, Mon, Tue, Wed, Thu, Fri, Sat, Sun}
  {
  }

  /** The decade (10, 20, ..., 80) that every id of a tab's initial list lies in. */
  function IdDecade(d: DayKey): int
  {
    match d
    case Weekly => 10
    case Mon => 20
    case Tue => 30
    case Wed => 40
    case Thu => 50
    case Fri => 60
    case Sat => 70
    case Sun => 80
  }

  /** Every id on the initial board is unique across the whole board, so a
      click on the initial board matches exactly one card. */
  lemma InitialBoardIdsDistinct()
    ensures BoardIdsDistinct(InitialBoard())
  {
    InitialIdsByPosition();
    IdsByDecadeAreDistinct(InitialBoard());
  }

  /** A board whose tab d holds fewer than ten tasks, numbered IdDecade(d) + 1
      upwards, has no id twice. */
  lemma IdsByDecadeAreDistinct(b: TaskMap)
    requires forall d :: d in b ==> |b[d]| < 10
    requires forall d, i :: d in b && 0 <= i < |b[d]| ==> b[d][i].id == IdDecade(d) + 1 + i
    ensures BoardIdsDistinct(b)
  {
    forall d1, d2 | d1 != d2
      ensures IdDecade(d1) + 10 <= IdDecade(d2) || IdDecade(d2) + 10 <= IdDecade(d1)
    {
    }
  }

  /** On the initial board the task at position i of tab d has id
      IdDecade(d) + 1 + i. */
  lemma InitialIdsByPosition()
    ensures forall d :: |InitialBoard()[d]| < 10
    ensures forall d, i :: 0 <= i < |InitialBoard()[d]| ==>
              InitialBoard()[d][i].id == IdDecade(d) + 1 + i
  {
    var b: TaskMap := InitialBoard();
    forall d, i | 0 <= i < |b[d]|
      ensures b[d][i].id == IdDecade(d) + 1 + i
    {
      if d == Weekly {
        assert b[d][i].id == 11 + i;
      }
    }
  }

  // ---------------------------------------------------------------------------
  // Toggling
  // ---------------------------------------------------------------------------

  /** One step of the list update: a task whose id matches has `done` negated;
      any other task is returned as it is. */
  function ToggleTask(t: Task, id: int): (r: Task)
    ensures r.id == t.id && r.name == t.name
    ensures r.done == (t.done != (t.id == id))
  {
    if t.id == id then t.(done := !t.done) else t
  }

  /** The list update applied to every task of a list, in order. */
  function ToggleList(ts: seq<Task>, id: int): (r: seq<Task>)
    ensures SameLayout(r, ts)
    ensures forall i :: 0 <= i < |ts| ==> r[i].done == (ts[i].done != (ts[i].id == id))
    ensures forall i :: 0 <= i < |ts| && ts[i].id != id ==> r[i] == ts[i]
  {
    if ts == [] then [] else [ToggleTask(ts[0], id)] + ToggleList(ts[1..], id)
  }

  /** The click handler: a new board in which every task of `day`'s list whose
      id is `id` has its `done` flag negated, and everything else is as before. */
  function ToggleDone(tasks: TaskMap, day: DayKey, id: int): (r: TaskMap)
    requires day in tasks
    ensures r.Keys == tasks.Keys
    ensures forall d :: d in tasks && d != day ==> r[d] == tasks[d]
    ensures SameLayout(r[day], tasks[day])
    ensures forall i :: 0 <= i < |tasks[day]| ==>
              r[day][i].done == (tasks[day][i].done != (tasks[day][i].id == id))
    ensures forall i :: 0 <= i < |tasks[day]| && tasks[day][i].id != id ==>
              r[day][i] == tasks[day][i]
  {
    tasks[day := ToggleList(tasks[day], id)]
  }

  /** Clicking the same card twice gives back the board it started from. */
  lemma ToggleDoneInvolution(tasks: TaskMap, day: DayKey, id: int)
    requires day in tasks
    ensures ToggleDone(ToggleDone(tasks, day, id), day, id) == tasks
  {
    var once := ToggleDone(tasks, day, id);
    var twice := ToggleDone(once, day, id);
    forall i | 0 <= i < |tasks[day]|
      ensures twice[day][i] == tasks[day][i]
    {
      var t := tasks[day][i];
      assert twice[day][i] == Task(t.id, t.name, t.done);
    }
    assert twice[day] == tasks[day];
  }

  /** A toggle changes the board if and only if `day`'s list holds the id. */
  lemma ToggleDoneNoOpIffAbsent(tasks: TaskMap, day: DayKey, id: int)
    requires day in tasks
    ensures ToggleDone(tasks, day, id) == tasks <==> !HasId(tasks[day], id)
  {
    var r: TaskMap := ToggleDone(tasks, day, id);
    if HasId(tasks[day], id) {
      var i :| 0 <= i < |tasks[day]| && tasks[day][i].id == id;
      assert r[day][i].done != tasks[day][i].done;
    } else {
      assert r[day] == tasks[day];
    }
  }

  /** When the ids of `day`'s list are distinct, a toggle of an id held at
      position k changes that task only. */
  lemma ToggleDoneFlipsOneCard(tasks: TaskMap, day: DayKey, id: int, k: int)
    requires day in tasks && DistinctIds(tasks[day])
    requires 0 <= k < |tasks[day]| && tasks[day][k].id == id
    ensures ToggleDone(tasks, day, id)[day][k].done == !tasks[day][k].done
    ensures forall i :: 0 <= i < |tasks[day]| && i != k ==>
              ToggleDone(tasks, day, id)[day][i] == tasks[day][i]
  {
  }

  /** Toggles never touch ids, names or the set of tabs, so a board with
      distinct ids keeps them. */
  lemma ToggleDoneKeepsBoard(tasks: TaskMap, day: DayKey, id: int)
    requires day in tasks
    ensures HasEveryDay(tasks) ==> HasEveryDay(ToggleDone(tasks, day, id))
    ensures BoardIdsDistinct(tasks) ==> BoardIdsDistinct(ToggleDone(tasks, day, id))
  {
    var r: TaskMap := ToggleDone(tasks, day, id);
    forall d | d in tasks
      ensures SameLayout(r[d], tasks[d])
    {
    }
  }

  /** Two list updates give the same list in either order. */
  lemma {:induction false} ToggleListCommutes(ts: seq<Task>, id1: int, id2: int)
    ensures ToggleList(ToggleList(ts, id1), id2) == ToggleList(ToggleList(ts, id2), id1)
  {
    if ts != [] {
      var t, rest := ts[0], ts[1..];
      ToggleListCommutes(rest, id1, id2);
      assert ToggleList(ts, id1)[1..] == ToggleList(rest, id1);
      assert ToggleList(ts, id2)[1..] == ToggleList(rest, id2);
      assert ToggleTask(ToggleTask(t, id1), id2) == ToggleTask(ToggleTask(t, id2), id1);
    }
  }

  /** Two toggles, on any tabs and ids, give the same board in either order. */
  lemma ToggleDoneCommutes(tasks: TaskMap, d1: DayKey, id1: int, d2: DayKey, id2: int)
    requires d1 in tasks && d2 in tasks
    ensures ToggleDone(ToggleDone(tasks, d1, id1), d2, id2)
         == ToggleDone(ToggleDone(tasks, d2, id2), d1, id1)
  {
    if d1 == d2 {
      ToggleListCommutes(tasks[d1], id1, id2);
    } else {
      var l1, l2 := ToggleList(tasks[d1], id1), ToggleList(tasks[d2], id2);
      var a1: TaskMap := ToggleDone(tasks, d1, id1);
      var b2: TaskMap := ToggleDone(tasks, d2, id2);
      assert a1 == tasks[d1 := l1] && a1[d2] == tasks[d2];
      assert b2 == tasks[d2 := l2] && b2[d1] == tasks[d1];
      MapUpdatesCommute(tasks, d1, l1, d2, l2);
    }
  }

  /** Updates of two distinct keys give the same map in either order. */
  lemma MapUpdatesCommute(m: TaskMap, k1: DayKey, v1: seq<Task>, k2: DayKey, v2: seq<Task>)
    requires k1 != k2
    ensures m[k1 := v1][k2 := v2] == m[k2 := v2][k1 := v1]
  {
  }

  // ---------------------------------------------------------------------------
  // A sequence of clicks
  // ---------------------------------------------------------------------------

  /** One click on a card: the tab it was shown on and the card's task id. */
  datatype Click = Click(day: DayKey, id: int)

  /** The board after the clicks, applied first to last. */
  function Replay(tasks: TaskMap, clicks: seq<Click>): (r: TaskMap)
    requires HasEveryDay(tasks)
    ensures r.Keys == tasks.Keys
    ensures forall d :: d in tasks ==> SameLayout(r[d], tasks[d])
    decreases |clicks|
  {
    if clicks == [] then tasks
    else
      ToggleDoneKeepsBoard(tasks, clicks[0].day, clicks[0].id);
      Replay(ToggleDone(tasks, clicks[0].day, clicks[0].id), clicks[1..])
  }

  /** How many of the clicks were on the card with this id in this tab. */
  function ClickCount(clicks: seq<Click>, day: DayKey, id: int): nat
  {
    if clicks == [] then 0
    else (if clicks[0] == Click(day, id) then 1 else 0) + ClickCount(clicks[1..], day, id)
  }

  /** After any clicks, a task is done exactly when it started done and was
      clicked an even number of times, or started not done and was clicked an
      odd number of times. */
  lemma {:induction false} ReplayParity(tasks: TaskMap, clicks: seq<Click>, day: DayKey, i: int)
    requires HasEveryDay(tasks) && 0 <= i < |tasks[day]|
    ensures Replay(tasks, clicks)[day][i].done
         == (tasks[day][i].done != (ClickCount(clicks, day, tasks[day][i].id) % 2 == 1))
    decreases |clicks|
  {
    if clicks != [] {
      var c, rest := clicks[0], clicks[1..];
      var t := tasks[day][i];
      var hit := c == Click(day, t.id);
      var next: TaskMap := ToggleDone(tasks, c.day, c.id);
      ClickStep(tasks, c, day, i);
      var n, total := ClickCount(rest, day, t.id), ClickCount(clicks, day, t.id);
      assert total == (if hit then 1 else 0) + n;
      ParityStep(t.done, hit, n, total);
      ReplayParity(next, rest, day, i);
      ReplayFirstClick(tasks, clicks);
      var after := Replay(next, rest)[day][i].done;
      assert after == ((t.done != hit) != (n % 2 == 1));
      assert Replay(tasks, clicks)[day][i].done == after;
      assert after == (t.done != (total % 2 == 1));
    }
  }

  /** Replaying clicks is the first click followed by the rest. */
  lemma ReplayFirstClick(tasks: TaskMap, clicks: seq<Click>)
    requires HasEveryDay(tasks) && clicks != []
    ensures Replay(tasks, clicks) == Replay(ToggleDone(tasks, clicks[0].day, clicks[0].id), clicks[1..])
  {
  }

  /** One click keeps every tab and flips the task at (day, i) exactly when
      the click names that task's tab and id. */
  lemma ClickStep(tasks: TaskMap, c: Click, day: DayKey, i: int)
    requires HasEveryDay(tasks) && 0 <= i < |tasks[day]|
    ensures HasEveryDay(ToggleDone(tasks, c.day, c.id))
    ensures i < |ToggleDone(tasks, c.day, c.id)[day]|
    ensures ToggleDone(tasks, c.day, c.id)[day][i].id == tasks[day][i].id
    ensures ToggleDone(tasks, c.day, c.id)[day][i].done
         == (tasks[day][i].done != (c == Click(day, tasks[day][i].id)))
  {
  }

  /** One more click flips the parity of the count exactly when it hits. */
  lemma ParityStep(was: bool, hit: bool, n: nat, total: nat)
    requires total == (if hit then 1 else 0) + n
    ensures ((was != hit) != (n % 2 == 1)) == (was != (total % 2 == 1))
  {
  }

  /** Starting from the initial board, a task is done exactly when its card was
      clicked an odd number of times, and ids stay unique across the board. */
  lemma ReplayFromInitialBoard(clicks: seq<Click>, day: DayKey, i: int)
    requires 0 <= i < |InitialBoard()[day]|
    ensures BoardIdsDistinct(Replay(InitialBoard(), clicks))
    ensures Replay(InitialBoard(), clicks)[day][i].done
         == (ClickCount(clicks, day, InitialBoard()[day][i].id) % 2 == 1)
  {
    var b: TaskMap := InitialBoard();
    InitialBoardIdsDistinct();
    ReplayParity(b, clicks, day, i);
  }
}
