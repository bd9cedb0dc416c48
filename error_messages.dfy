/**
 * The message tables of src/lib/errorMessages.ts: the server's messages,
 * each in a development and a production wording, and the classification
 * of errors caught in the browser into a few friendly messages.
 */
module ErrorMessages {
  import opened Text

  datatype MessageKey =
    | Unauthorized | InvalidSecret | MissingSanityConfig | MissingGeminiKey | InvalidRequestData
    | BlogPostNotFound | MissingRequiredFields | AiGenerationFailed | AiJsonParseError
    | AiBodyExtractionError | FetchFailed | ServerError | RateLimitExceeded | UnknownError

  datatype Wording = Wording(dev: String, prod: String)

  /** `ERROR_MESSAGES`. */
  function Messages(key: MessageKey): Wording {
    match key
    case Unauthorized => Wording(
      "Unauthorized: Invalid or missing authorization token. Please provide a valid Bearer token.",
      "Access denied. Please check your credentials and try again.")
    case InvalidSecret => Wording(
      "Invalid secret token provided. Expected format: Bearer <token>",
      "Invalid authentication token. Please try again.")
    case MissingSanityConfig => Wording(
      "Sanity configuration is incomplete. Required: SANITY_API_TOKEN, NEXT_PUBLIC_SANITY_PROJECT_ID, NEXT_PUBLIC_SANITY_DATASET",
      "Service configuration error. Please contact support.")
    case MissingGeminiKey => Wording(
      "GEMINI_API_KEY environment variable is not set. Cannot generate AI content.",
      "AI service is not configured. Please contact support.")
    case InvalidRequestData => Wording(
      "Request data validation failed. Check the request payload format.",
      "Invalid request data. Please check your input and try again.")
    case BlogPostNotFound => Wording(
      "Blog post with the specified slug does not exist in the database.",
      "The requested blog post could not be found.")
    case MissingRequiredFields => Wording(
      "AI response is missing required fields (title, body, or summary).",
      "Failed to generate complete content. Please try again.")
    case AiGenerationFailed => Wording(
      "Failed to parse AI-generated content. The response format may be invalid.",
      "Content generation failed. Please try again.")
    case AiJsonParseError => Wording(
      "Could not extract or parse JSON from AI response. Response may be malformed.",
      "Failed to process generated content. Please try again.")
    case AiBodyExtractionError => Wording(
      "Could not find the end of body string in AI response.",
      "Content generation incomplete. Please try again.")
    case FetchFailed => Wording(
      "Network request failed. Check your connection and server status.",
      "Failed to load data. Please check your connection and try again.")
    case ServerError => Wording(
      "Internal server error occurred. Check server logs for details.",
      "An error occurred while processing your request. Please try again later.")
    case RateLimitExceeded => Wording(
      "Rate limit exceeded. Too many requests from this IP address.",
      "Too many requests. Please wait a moment and try again.")
    case UnknownError => Wording(
      "An unexpected error occurred. Check the error details for more information.",
      "Something went wrong. Please try again later.")
  }

  /** `getErrorMessage`: the development wording in development mode, the
      production wording otherwise. */
  function GetErrorMessage(key: MessageKey, dev: bool): (r: String)
    ensures dev ==> r == Messages(key).dev
    ensures !dev ==> r == Messages(key).prod
  {
    if dev then Messages(key).dev else Messages(key).prod
  }

  /* ---------------------------------------------------------------------- */
  /* Messages in the browser                                                 */
  /* ---------------------------------------------------------------------- */

  const LoadMoreFailed: String := "Unable to load more posts. Please try again."
  const GenerateBlogFailed: String := "Failed to generate blog post. Please try again."
  const TokenRequired: String := "Please enter the blog generation secret token."
  const NetworkError: String := "Network error. Please check your connection and try again."
  const Unknown: String := "Something went wrong. Please try again."

  /** A value caught in the browser: an `Error` with its message, or
      anything else. */
  datatype Caught = CaughtError(message: String) | CaughtValue

  /** `getClientErrorMessage`. */
  function GetClientErrorMessage(error: Caught): (r: String)
  {
    if error.CaughtError? then
      var m := error.message;
      if Contains(m, "fetch") || Contains(m, "network") then NetworkError
      else if Contains(m, "generate") then GenerateBlogFailed
      else if Contains(m, "load") then LoadMoreFailed
      else m
    else Unknown
  }

  /** The patterns in the order they are tried, each with its message. */
  function Patterns(): seq<(String, String)> {
    [("fetch", NetworkError), ("network", NetworkError), ("generate", GenerateBlogFailed), ("load", LoadMoreFailed)]
  }

  /** The message of the first pattern, in the order given, that the text
      contains; the text itself when it contains none. */
  function FirstMatching(patterns: seq<(String, String)>, m: String): (r: String)
    ensures (forall i :: 0 <= i < |patterns| ==> !Contains(m, patterns[i].0)) ==> r == m
  {
    if patterns == [] then m
    else if Contains(m, patterns[0].0) then patterns[0].1
    else FirstMatching(patterns[1..], m)
  }

  /** An `Error` gets the message of the first pattern its message
      contains, tested case-sensitively as a substring; a message with none
      of them passes through; any other value gets the generic message. */
  lemma ClientMessagePriority(error: Caught)
    ensures error.CaughtError? ==> GetClientErrorMessage(error) == FirstMatching(Patterns(), error.message)
    ensures error.CaughtValue? ==> GetClientErrorMessage(error) == Unknown
  {
    if error.CaughtError? {
      var m := error.message;
      var p := Patterns();
      var p1: seq<(String, String)> := [("network", NetworkError), ("generate", GenerateBlogFailed), ("load", LoadMoreFailed)];
      var p2: seq<(String, String)> := [("generate", GenerateBlogFailed), ("load", LoadMoreFailed)];
      var p3: seq<(String, String)> := [("load", LoadMoreFailed)];
      var none: seq<(String, String)> := [];
      assert p[0] == ("fetch", NetworkError) && p[1..] == p1;
      assert p1[0] == ("network", NetworkError) && p1[1..] == p2;
      assert p2[0] == ("generate", GenerateBlogFailed) && p2[1..] == p3;
      assert p3[0] == ("load", LoadMoreFailed) && p3[1..] == none;
      assert FirstMatching(p3, m) == (if Contains(m, "load") then LoadMoreFailed else m);
      assert FirstMatching(p2, m) == (if Contains(m, "generate") then GenerateBlogFailed else FirstMatching(p3, m));
      assert FirstMatching(p1, m) == (if Contains(m, "network") then NetworkError else FirstMatching(p2, m));
      assert FirstMatching(p, m) == (if Contains(m, "fetch") then NetworkError else FirstMatching(p1, m));
    }
  }
}
