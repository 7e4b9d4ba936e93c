/** The rows of the user-search results: the action button follows the relation
    status the search computed for each user. */
module UserSearchAdapter {
  import opened Wrappers
  import opened Entities

  const FRIEND := "friend"
  const PENDING_STATUS := "pending"
  const NO_RELATION := "none"

  /** The action button: its text, whether it is enabled, and the user its click
      sends a request to (only an enabled button gets a click listener). */
  datatype ActionButton = ActionButton(text: string, enabled: bool, onAdd: Option<User>)

  datatype UserRow = UserRow(displayName: string, usernameText: string, button: ActionButton)

  /** `onBindViewHolder`: "Friends" and "Pending" are disabled; any other or missing
      status gives an enabled "Add". */
  function BindUserRow(user: User, statusMap: map<string, string>): (r: UserRow)
    ensures r.displayName == user.displayName && r.usernameText == "@" + user.username
    ensures r.button.enabled <==> user.id !in statusMap || (statusMap[user.id] != FRIEND && statusMap[user.id] != PENDING_STATUS)
    ensures r.button.onAdd == if r.button.enabled then Some(user) else None
    ensures r.button.text == if !r.button.enabled then (if statusMap[user.id] == FRIEND then "Friends" else "Pending") else "Add"
  {
    var button :=
      if user.id in statusMap && statusMap[user.id] == FRIEND then ActionButton("Friends", false, None)
      else if user.id in statusMap && statusMap[user.id] == PENDING_STATUS then ActionButton("Pending", false, None)
      else ActionButton("Add", true, Some(user));
    UserRow(user.displayName, "@" + user.username, button)
  }
}
