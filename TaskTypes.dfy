/** The task record and its enumerations, as declared in `src/types/task.ts`. */
module TaskTypes {

  datatype Priority = Low | Medium | High

  datatype Category = Work | Personal | Shopping | Health | Others

  /** The status filter of the task list. */
  datatype TaskStatus = All | Active | Completed

  datatype Task = Task(
    id: string,
    title: string,
    description: string,
    dueDate: string,
    category: Category,
    priority: Priority,
    completed: bool,
    createdAt: string,
    updatedAt: string)

  /** The string literal each priority is at run time. */
  function PriorityName(p: Priority): string {
    match p
    case Low => "low"
    case Medium => "medium"
    case High => "high"
  }

  /** The string literal each category is at run time. None is the empty
      string, which the dashboard's category filter uses for "all". */
  function CategoryName(c: Category): (r: string)
    ensures r != []
  {
    match c
    case Work => "work"
    case Personal => "personal"
    case Shopping => "shopping"
    case Health => "health"
    case Others => "others"
  }

  /** Distinct priorities have distinct names, so sorting by priority ties
      exactly the tasks of equal priority. */
  lemma PriorityNameInjective(p: Priority, q: Priority)
    ensures PriorityName(p) == PriorityName(q) <==> p == q
  {
  }

  /** Distinct categories have distinct names. */
  lemma CategoryNameInjective(c: Category, d: Category)
    ensures CategoryName(c) == CategoryName(d) <==> c == d
  {
  }
}
