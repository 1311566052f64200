/**
 * The completion service's vocabulary: a role-tagged turn and the single
 * outcome a completion call can have. `createChatCompletion` turns every
 * upstream error into one "Completion failed!" error, so the outcome is
 * either that failure or the top choice's content with the call's total
 * token usage.
 */
module Chat {
  datatype Role = System | User | Assistant

  function RoleName(r: Role): string {
    match r
    case System => "system"
    case User => "user"
    case Assistant => "assistant"
  }

  datatype Turn = Turn(role: Role, content: string)

  datatype CompletionResult =
    | CompletionFailed
    | Completed(content: string, totalTokens: nat)
}
