/**
 * The rows of the three tables (stars/code/backend/models). Timestamps and dates
 * are abstract integers that order like the instants they stand for.
 */
module Models {
  import opened Wrappers

  /** A comment or a reply; `parentId` is None for a top-level comment. */
  datatype Comment = Comment(id: int, goalId: int, parentId: Option<int>, content: string, createdAt: int)

  /** A goal with its accumulated star count. */
  datatype StarGoal = StarGoal(
    id: int, title: string, description: string, category: string,
    stars: int, createdAt: int, updatedAt: int)

  /** One day's star rating of a goal. */
  datatype DailyRating = DailyRating(id: int, goalId: int, rating: int, date: int, createdAt: int)
}
