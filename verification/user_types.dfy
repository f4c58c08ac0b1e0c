/** The shapes of user input before and after sanitizing. */
module UserTypes {
  import opened Wrappers

  /** Input of user creation: role and status may be left out. */
  datatype CreateUserInput = CreateUserInput(
    username: string,
    email: string,
    fullName: string,
    role: Option<string>,
    status: Option<string>)

  /** Creation input after sanitizing: every field is present. */
  datatype SanitizedCreateUserInput = SanitizedCreateUserInput(
    username: string,
    email: string,
    fullName: string,
    role: string,
    status: string)

  /** Input of a user update, and the partial input the validator checks: any field may be absent. */
  datatype UpdateUserInput = UpdateUserInput(
    username: Option<string>,
    email: Option<string>,
    fullName: Option<string>,
    role: Option<string>,
    status: Option<string>)
}
