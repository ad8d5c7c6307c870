/**
 * The Task entity of the second variant of the application
 * (TaskManagementSystem/): the same mutable record without a reminder list.
 */
module PlainModel {
  import opened Dates
  import Rules

  class Task {
    var id: int
    var title: string
    var description: string
    var category: string
    var priority: string
    var deadline: LocalDate
    var status: string

    /**
     * The no-argument constructor: every field keeps Java's default (0, and
     * null strings, modelled as empty strings); in particular no status is set.
     */
    constructor Blank()
      ensures id == 0 && title == "" && description == "" && category == "" && priority == "" && status == ""
    {
      id, title, description, category, priority, status := 0, "", "", "", "", "";
    }

    /** A new task: the given fields and a status derived from the deadline. */
    constructor (id: int, title: string, description: string, category: string, priority: string,
                 deadline: LocalDate, today: LocalDate)
      ensures this.id == id && this.title == title && this.description == description
      ensures this.category == category && this.priority == priority && this.deadline == deadline
      ensures status == "Delayed" <==> IsBefore(deadline, today)
      ensures status == "Open" <==> !IsBefore(deadline, today)
    {
      this.id, this.title, this.description := id, title, description;
      this.category, this.priority, this.deadline := category, priority, deadline;
      status := Rules.InitialStatus(deadline, today);
    }

    method SetId(id: int)
      modifies this`id
      ensures this.id == id
    {
      this.id := id;
    }

    method SetTitle(title: string)
      modifies this`title
      ensures this.title == title
    {
      this.title := title;
    }

    method SetDescription(description: string)
      modifies this`description
      ensures this.description == description
    {
      this.description := description;
    }

    method SetCategory(category: string)
      modifies this`category
      ensures this.category == category
    {
      this.category := category;
    }

    method SetPriority(priority: string)
      modifies this`priority
      ensures this.priority == priority
    {
      this.priority := priority;
    }

    method SetDeadline(deadline: LocalDate)
      modifies this`deadline
      ensures this.deadline == deadline
    {
      this.deadline := deadline;
    }

    method SetStatus(status: string)
      modifies this`status
      ensures this.status == status
    {
      this.status := status;
    }
  }
}
