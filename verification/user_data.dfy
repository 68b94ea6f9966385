/** The `user_data` table shared by the generator exercises: one row per user. */
module UserData {

  /** A stored row: `user_id CHAR(36)`, `name`, `email` and `age INT`, all NOT NULL. */
  datatype UserRow = UserRow(userId: string, name: string, email: string, age: int)
}
