/** The task record and the small enumerations around it. */
module Tasks {

  datatype Option<+T> = None | Some(value: T)

  /** The three priorities the form offers. */
  datatype Priority = High | Medium | Low

  /** The `priorityOrder` table of the comparator: high 3, medium 2, low 1. */
  function Rank(p: Priority): (n: int)
    ensures 1 <= n <= 3
  {
    match p
    case High => 3
    case Medium => 2
    case Low => 1
  }

  /** High outranks medium outranks low, and distinct priorities have distinct ranks. */
  lemma {:induction false} RankOrder(p: Priority, q: Priority)
    ensures Rank(High) > Rank(Medium) > Rank(Low)
    ensures Rank(p) == Rank(q) <==> p == q
  {
  }

  /** A calendar date stored as a day number (see DayNumber). */
  type Day = int

  /** One stored task. `dueDate` is None where the source stores `null`. */
  datatype Task = Task(id: int, text: string, completed: bool, priority: Priority, dueDate: Option<Day>)

  /** The three filter buttons. */
  datatype FilterMode = All | Active | Completed

  /** An order-preserving day number for the ISO date `y-m-d`; only the order of
      two dates matters to the tracker, never the size of their difference. */
  function DayNumber(y: int, m: int, d: int): Day
    requires 1 <= m <= 12 && 1 <= d <= 31
  {
    (y * 12 + (m - 1)) * 31 + (d - 1)
  }

  /** Day numbers order dates the way their ISO `YYYY-MM-DD` spellings do:
      by year, then month, then day. */
  lemma {:induction false} DayNumberOrder(y1: int, m1: int, d1: int, y2: int, m2: int, d2: int)
    requires 1 <= m1 <= 12 && 1 <= d1 <= 31
    requires 1 <= m2 <= 12 && 1 <= d2 <= 31
    ensures DayNumber(y1, m1, d1) < DayNumber(y2, m2, d2) <==>
            y1 < y2 || (y1 == y2 && (m1 < m2 || (m1 == m2 && d1 < d2)))
  {
  }
}
