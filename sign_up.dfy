/**
 * The website's sign-up form check and the mapping of the deployed configuration
 * onto the authentication library's settings (website/src/App.tsx). Error messages
 * are kept as their translation keys.
 */
module SignUp {
  import opened Wrappers

  // ----- The username rule -----

  predicate IsAsciiAlnum(c: char) {
    'a' <= c <= 'z' || 'A' <= c <= 'Z' || '0' <= c <= '9'
  }

  predicate IsSeparator(c: char) {
    c == '_' || c == '.'
  }

  /** The character class `[a-zA-Z0-9._]`. */
  predicate IsUsernameChar(c: char) {
    IsAsciiAlnum(c) || IsSeparator(c)
  }

  /**
   * `^(?=.{2,20}$)(?![_.])(?!.*[_.]{2})[a-zA-Z0-9._]+(?<![_.])$` tested on `u`, part by
   * part: 2 to 20 characters, no separator first, no two separators in a row, only
   * characters of the class, and no separator last. (`.` in the look-aheads skips no
   * character of the class, so it is not written out.)
   */
  predicate UsernameRegexTest(u: string) {
    && 2 <= |u| <= 20
    && !IsSeparator(u[0])
    && (forall i :: 0 <= i < |u| - 1 ==> !(IsSeparator(u[i]) && IsSeparator(u[i + 1])))
    && (forall i :: 0 <= i < |u| ==> IsUsernameChar(u[i]))
    && !IsSeparator(u[|u| - 1])
  }

  /**
   * An independent description of the same names: runs of letters and digits joined
   * by single `_` or `.`.
   */
  predicate Joined(u: string)
    decreases |u|
  {
    && |u| >= 1 && IsAsciiAlnum(u[0])
    && (|u| == 1 || Joined(u[1..]) || (IsSeparator(u[1]) && Joined(u[2..])))
  }

  /** The parts of the pattern other than its length. */
  predicate Shape(u: string) {
    && |u| >= 1
    && !IsSeparator(u[0])
    && (forall i :: 0 <= i < |u| - 1 ==> !(IsSeparator(u[i]) && IsSeparator(u[i + 1])))
    && (forall i :: 0 <= i < |u| ==> IsUsernameChar(u[i]))
    && !IsSeparator(u[|u| - 1])
  }

  // ----- The form -----

  /** The fields the check reads; a missing or empty field is `None` or `""` alike. */
  datatype SignUpFormData = SignUpFormData(
    username: string,
    acknowledgement: Option<string>,
    countryCode: Option<string>)

  predicate Present(v: Option<string>) {
    v.Some? && v.value != ""
  }

  /**
   * `validateCustomSignUp(formData)`: one entry per failed check, from the field's name
   * to its message key; the form is accepted when no entry is made.
   */
  method ValidateCustomSignUp(formData: SignUpFormData) returns (errors: map<string, string>)
    ensures errors.Keys <= {"username", "acknowledgement", "countryCode"}
    ensures "username" in errors <==> !UsernameRegexTest(formData.username)
    ensures "acknowledgement" in errors <==> !Present(formData.acknowledgement)
    ensures "countryCode" in errors <==> !Present(formData.countryCode)
    ensures "username" in errors ==> errors["username"] == "app.signup.username-error"
    ensures "acknowledgement" in errors ==> errors["acknowledgement"] == "app.signup.acknowledgement"
    ensures "countryCode" in errors ==> errors["countryCode"] == "app.signup.select-your-country"
    ensures errors == map[] <==>
      UsernameRegexTest(formData.username) && Present(formData.acknowledgement) && Present(formData.countryCode)
  {
    errors := map[];
    if !UsernameRegexTest(formData.username) {
      errors := errors["username" := "app.signup.username-error"];
    }
    if !Present(formData.acknowledgement) {
      errors := errors["acknowledgement" := "app.signup.acknowledgement"];
    }
    if !Present(formData.countryCode) {
      errors := errors["countryCode" := "app.signup.select-your-country"];
    }
  }

  // ----- The configuration -----

  datatype LegacyAuth = LegacyAuth(region: string, userPoolId: string, userPoolWebClientId: string, identityPoolId: string)
  datatype LegacyStorage = LegacyStorage(region: string, bucket: string, uploadBucket: string, identityPoolId: string)
  datatype LegacyApi = LegacyApi(graphqlEndpoint: string, region: string, authenticationType: string)

  /** The deployed `config.json`; the optional URL and monitoring sections are not read here. */
  datatype LegacyConfig = LegacyConfig(auth: LegacyAuth, storage: LegacyStorage, api: LegacyApi)

  datatype Cognito = Cognito(userPoolId: string, userPoolClientId: string, identityPoolId: string)
  datatype GraphQL = GraphQL(endpoint: string, region: string, defaultAuthMode: string)
  datatype S3 = S3(bucket: string, region: string)
  datatype ResourcesConfig = ResourcesConfig(cognito: Cognito, graphQL: GraphQL, s3: S3)

  /** `buildAmplifyConfig(legacy)`. */
  function BuildAmplifyConfig(legacy: LegacyConfig): (r: ResourcesConfig)
    ensures r.cognito.userPoolClientId == legacy.auth.userPoolWebClientId
    ensures r.cognito.userPoolId == legacy.auth.userPoolId && r.cognito.identityPoolId == legacy.auth.identityPoolId
    ensures r.graphQL.endpoint == legacy.api.graphqlEndpoint && r.graphQL.region == legacy.api.region
    ensures r.graphQL.defaultAuthMode == "userPool"
    ensures r.s3.bucket == legacy.storage.bucket && r.s3.region == legacy.storage.region
  {
    ResourcesConfig(
      Cognito(legacy.auth.userPoolId, legacy.auth.userPoolWebClientId, legacy.auth.identityPoolId),
      GraphQL(legacy.api.graphqlEndpoint, legacy.api.region, "userPool"),
      S3(legacy.storage.bucket, legacy.storage.region))
  }

  /** The seven settings that are carried over. */
  predicate SameCopiedFields(a: LegacyConfig, b: LegacyConfig) {
    && a.auth.userPoolId == b.auth.userPoolId
    && a.auth.userPoolWebClientId == b.auth.userPoolWebClientId
    && a.auth.identityPoolId == b.auth.identityPoolId
    && a.api.graphqlEndpoint == b.api.graphqlEndpoint
    && a.api.region == b.api.region
    && a.storage.bucket == b.storage.bucket
    && a.storage.region == b.storage.region
  }

  // ----- Properties -----

  /** The pattern's parts other than its length describe exactly the joined runs. */
  lemma JoinedIffShape(u: string)
    ensures Joined(u) <==> Shape(u)
  {
    if Joined(u) {
      JoinedToShape(u);
    }
    if Shape(u) {
      ShapeToJoined(u);
    }
  }

  lemma {:induction false} JoinedToShape(u: string)
    requires Joined(u)
    ensures Shape(u)
    decreases |u|
  {
    if |u| >= 2 {
      if Joined(u[1..]) {
        JoinedToShape(u[1..]);
        ShapeFromTail(u, 1);
      } else {
        JoinedToShape(u[2..]);
        ShapeFromTail(u, 2);
      }
    }
  }

  lemma {:induction false} ShapeToJoined(u: string)
    requires Shape(u)
    ensures Joined(u)
    decreases |u|
  {
    if |u| >= 2 {
      if IsSeparator(u[1]) {
        TailShape(u, 2);
        ShapeToJoined(u[2..]);
      } else {
        TailShape(u, 1);
        ShapeToJoined(u[1..]);
      }
    }
  }

  /** A letter or digit, then (for `k == 2`) a separator, then a well-shaped rest. */
  lemma ShapeFromTail(u: string, k: nat)
    requires k == 1 || k == 2
    requires |u| > k && IsAsciiAlnum(u[0]) && Shape(u[k..])
    requires k == 2 ==> IsSeparator(u[1])
    ensures Shape(u)
  {
    var t := u[k..];
    assert forall i :: 0 <= i < |t| ==> t[i] == u[i + k];
    forall i | 0 <= i < |u| - 1 ensures !(IsSeparator(u[i]) && IsSeparator(u[i + 1])) {
      if i >= k {
        assert u[i] == t[i - k] && u[i + 1] == t[i + 1 - k];
      } else if i == k - 1 {
        assert u[i + 1] == t[0];
      }
    }
    forall i | 0 <= i < |u| ensures IsUsernameChar(u[i]) {
      if i >= k {
        assert u[i] == t[i - k];
        assert IsUsernameChar(t[i - k]);
      }
    }
    assert u[|u| - 1] == t[|t| - 1];
  }

  /** Dropping the first character, or a first character and the separator after it, keeps the shape. */
  lemma TailShape(u: string, k: nat)
    requires k == 1 || k == 2
    requires |u| >= 2 && Shape(u)
    requires k == 1 <==> !IsSeparator(u[1])
    ensures |u| > k && Shape(u[k..])
  {
    var t := u[k..];
    assert forall i :: 0 <= i < |t| ==> t[i] == u[i + k];
    if k == 2 {
      assert !(IsSeparator(u[1]) && IsSeparator(u[2]));
    }
    forall i | 0 <= i < |t| - 1 ensures !(IsSeparator(t[i]) && IsSeparator(t[i + 1])) {
      assert !(IsSeparator(u[i + k]) && IsSeparator(u[i + k + 1]));
    }
    forall i | 0 <= i < |t| ensures IsUsernameChar(t[i]) {
      assert IsUsernameChar(u[i + k]);
    }
  }

  /**
   * A valid username has 2 to 20 characters of `[A-Za-z0-9._]`, and is valid exactly when
   * it is letters and digits joined by single separators.
   */
  lemma UsernameRule(u: string)
    ensures UsernameRegexTest(u) ==> 2 <= |u| <= 20 && forall i :: 0 <= i < |u| ==> IsUsernameChar(u[i])
    ensures UsernameRegexTest(u) <==> 2 <= |u| <= 20 && Joined(u)
  {
    JoinedIffShape(u);
  }

  /** The settings built depend on exactly the seven copied fields. */
  lemma BuildDependsOnCopiedFields(a: LegacyConfig, b: LegacyConfig)
    ensures BuildAmplifyConfig(a) == BuildAmplifyConfig(b) <==> SameCopiedFields(a, b)
  {
  }
}
