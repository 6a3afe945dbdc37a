/**
  The sign-in error endpoint: it maps the identity provider's error code to a
  user-facing message and an HTTP status, and echoes the code back.
*/
module AuthErrorRoute {
  import opened Wrappers
  import Text

  datatype AuthErrorReply = AuthErrorReply(error: string, code: string, status: int)

  const GenericMessage := "An authentication error occurred"

  predicate IsProviderFlowError(error: Option<string>) {
    error in {Some("OAuthSignin"), Some("OAuthCallback"), Some("OAuthCreateAccount"),
              Some("EmailCreateAccount"), Some("Callback")}
  }

  /** The codes the switch names. */
  predicate IsKnownCode(error: Option<string>) {
    IsProviderFlowError(error)
    || error in {Some("Configuration"), Some("AccessDenied"), Some("Verification"),
                 Some("CredentialsSignin"), Some("SessionRequired")}
  }

  /**
    The reply for the `error` query parameter (None when the parameter is absent).
    The message and status start at the generic 500 answer and the switch overwrites them.
  */
  method AuthErrorResponse(error: Option<string>) returns (r: AuthErrorReply)
    ensures r.status in {400, 401, 403, 500}
    ensures r.code == if Text.Present(error) then error.value else "UNKNOWN_ERROR"
    ensures error == Some("Configuration") ==> r.error == "Server configuration error" && r.status == 500
    ensures error == Some("AccessDenied") ==> r.error == "Access denied" && r.status == 403
    ensures error == Some("Verification") ==> r.error == "Verification link invalid or expired" && r.status == 400
    ensures IsProviderFlowError(error) ==> r.error == "Error during authentication" && r.status == 400
    ensures error == Some("CredentialsSignin") ==> r.error == "Invalid credentials" && r.status == 401
    ensures error == Some("SessionRequired") ==> r.error == "Please sign in to access this page" && r.status == 401
    ensures !IsKnownCode(error) ==> r.error == GenericMessage && r.status == 500
    ensures r.status == 500 <==> !IsKnownCode(error) || error == Some("Configuration")
  {
    var errorMessage := GenericMessage;
    var statusCode := 500;
    if error == Some("Configuration") {
      errorMessage := "Server configuration error";
    } else if error == Some("AccessDenied") {
      errorMessage := "Access denied";
      statusCode := 403;
    } else if error == Some("Verification") {
      errorMessage := "Verification link invalid or expired";
      statusCode := 400;
    } else if IsProviderFlowError(error) {
      errorMessage := "Error during authentication";
      statusCode := 400;
    } else if error == Some("CredentialsSignin") {
      errorMessage := "Invalid credentials";
      statusCode := 401;
    } else if error == Some("SessionRequired") {
      errorMessage := "Please sign in to access this page";
      statusCode := 401;
    } else {
      statusCode := 500;
    }
    r := AuthErrorReply(errorMessage, if Text.Present(error) then error.value else "UNKNOWN_ERROR", statusCode);
  }
}
