/**
 * The `deviceActivation` resolver of lib/lambdas/device_activation_function/index.py:
 * it names the new managed instance after the host and the current minute, encodes
 * the device UI password as base64 of its UTF-8 bytes, asks the provisioning service
 * (SSM `create_activation`) for a one-registration activation tagged with the device
 * metadata, and returns the region with the activation code and id. Any exception is
 * returned as the result value instead of being raised.
 *
 * The clock (`datetime.now()`) is a parameter, and so is the provisioning service:
 * a function from the request to what the call returned or raised.
 */
module DeviceActivation {
  import opened Wrappers
  import opened Strings
  import opened Encoding

  /** A `datetime` down to the minute, the precision the label keeps. */
  datatype DateTime = DateTime(year: nat, month: nat, day: nat, hour: nat, minute: nat)

  /** The range of Python's `datetime` fields. */
  predicate ValidDateTime(d: DateTime) {
    1 <= d.year <= 9999 && 1 <= d.month <= 12 && 1 <= d.day <= 31 && d.hour < 24 && d.minute < 60
  }

  /** `now.strftime("%Y-%m-%d-%H:%M")`. */
  function FormatTimestamp(d: DateTime): string {
    ZeroPad(d.year, 4) + "-" + ZeroPad(d.month, 2) + "-" + ZeroPad(d.day, 2) + "-"
    + ZeroPad(d.hour, 2) + ":" + ZeroPad(d.minute, 2)
  }

  /** The fields read back from the fixed positions of the label's timestamp. */
  function ParseTimestamp(s: string): (d: Option<DateTime>) {
    if |s| == 16 && s[4] == '-' && s[7] == '-' && s[10] == '-' && s[13] == ':'
       && AllDigits(s[0..4]) && AllDigits(s[5..7]) && AllDigits(s[8..10])
       && AllDigits(s[11..13]) && AllDigits(s[14..16])
    then
      Some(DateTime(DigitsValue(s[0..4]), DigitsValue(s[5..7]), DigitsValue(s[8..10]),
                    DigitsValue(s[11..13]), DigitsValue(s[14..16])))
    else None
  }

  /** A field of width `w` is `w` digits whose value is the field. */
  lemma FieldText(n: nat, w: nat)
    requires 1 <= w && n < Pow10(w)
    ensures |ZeroPad(n, w)| == w && AllDigits(ZeroPad(n, w)) && DigitsValue(ZeroPad(n, w)) == n
  {
    ZeroPadLength(n, w);
    ZeroPadValue(n, w);
  }

  /** The timestamp has sixteen characters, its separators in place, and reads back as the minute. */
  lemma TimestampRoundTrip(d: DateTime)
    requires ValidDateTime(d)
    ensures |FormatTimestamp(d)| == 16
    ensures ParseTimestamp(FormatTimestamp(d)) == Some(d)
  {
    assert Pow10(2) == 100;
    assert Pow10(4) == 10000;
    var y, mo, da, h, mi := ZeroPad(d.year, 4), ZeroPad(d.month, 2), ZeroPad(d.day, 2),
                            ZeroPad(d.hour, 2), ZeroPad(d.minute, 2);
    FieldText(d.year, 4);
    FieldText(d.month, 2);
    FieldText(d.day, 2);
    FieldText(d.hour, 2);
    FieldText(d.minute, 2);
    var s := FormatTimestamp(d);
    assert s == y + "-" + mo + "-" + da + "-" + h + ":" + mi;
    assert s[0..4] == y;
    assert s[5..7] == mo;
    assert s[8..10] == da;
    assert s[11..13] == h;
    assert s[14..16] == mi;
  }

  /** `hostname + " - " + datestr`: both the default instance name and the `Name` tag. */
  function InstanceName(hostname: string, now: DateTime): string {
    hostname + " - " + FormatTimestamp(now)
  }

  /** `base64.b64encode(password.encode("utf-8")).decode("utf-8")`. */
  function EncodePassword(deviceUiPassword: string): string {
    Base64Encode(Utf8Encode(deviceUiPassword))
  }

  /** The encoded password decodes, base64 then UTF-8, to the password. */
  lemma PasswordRoundTrip(deviceUiPassword: string)
    ensures Base64Decode(EncodePassword(deviceUiPassword)) == Some(Utf8Encode(deviceUiPassword))
    ensures Utf8Decode(Utf8Encode(deviceUiPassword)) == Some(deviceUiPassword)
  {
    Base64RoundTrip(Utf8Encode(deviceUiPassword));
    Utf8RoundTrip(deviceUiPassword);
  }

  datatype Tag = Tag(key: string, value: string)

  /** The arguments of `client.create_activation`. */
  datatype CreateActivationRequest = CreateActivationRequest(
    description: string, defaultInstanceName: string, iamRole: Option<string>,
    registrationLimit: nat, tags: seq<Tag>)

  /** The request the resolver sends for one device. */
  function BuildRequest(
    hostname: string, fleetName: string, fleetId: string, deviceUiPassword: string, deviceType: string,
    now: DateTime, iamRole: Option<string>): CreateActivationRequest
  {
    var name := InstanceName(hostname, now);
    CreateActivationRequest(
      "Hybrid activation for DREM", name, iamRole, 1,
      [Tag("Name", name), Tag("Type", deviceType), Tag("fleetName", fleetName),
       Tag("fleetId", fleetId), Tag("DeviceUiPassword", EncodePassword(deviceUiPassword))])
  }

  /**
   * The request allows one registration, names the instance after the host and the
   * minute, and carries exactly the five tags in order; the password tag decodes to
   * the password.
   */
  lemma RequestShape(
    hostname: string, fleetName: string, fleetId: string, deviceUiPassword: string, deviceType: string,
    now: DateTime, iamRole: Option<string>)
    ensures var req := BuildRequest(hostname, fleetName, fleetId, deviceUiPassword, deviceType, now, iamRole);
      && req.registrationLimit == 1
      && req.iamRole == iamRole
      && |req.tags| == 5
      && req.tags[0].key == "Name" && req.tags[1].key == "Type" && req.tags[2].key == "fleetName"
      && req.tags[3].key == "fleetId" && req.tags[4].key == "DeviceUiPassword"
      && req.tags[0].value == req.defaultInstanceName
      && req.defaultInstanceName[..|hostname|] == hostname
      && req.defaultInstanceName[|hostname|..] == " - " + FormatTimestamp(now)
      && req.tags[1].value == deviceType && req.tags[2].value == fleetName && req.tags[3].value == fleetId
      && Base64Decode(req.tags[4].value) == Some(Utf8Encode(deviceUiPassword))
      && Utf8Decode(Utf8Encode(deviceUiPassword)) == Some(deviceUiPassword)
  {
    PasswordRoundTrip(deviceUiPassword);
    var name := InstanceName(hostname, now);
    assert name == hostname + (" - " + FormatTimestamp(now));
  }

  /** What the provisioning call gave back: the response dictionary, or the exception it raised. */
  datatype CallResult = Returned(response: map<string, string>) | Raised(error: string)

  /** The exception the resolver catches: the service's own, or the `KeyError` of a missing field. */
  datatype Failure = ProvisioningFailure(message: string) | KeyError(key: string)

  datatype ActivationData = ActivationData(region: string, activationCode: string, activationId: string)

  /** The resolver's value: the activation data, or the caught exception returned as a value. */
  datatype ActivationResult = Activated(data: ActivationData) | Failed(failure: Failure)

  /** `session.region_name or "eu-west-1"`: a missing or empty region falls back to Ireland. */
  function Region(sessionRegion: Option<string>): (r: string)
    ensures sessionRegion.Some? && sessionRegion.value != "" ==> r == sessionRegion.value
    ensures sessionRegion.None? || sessionRegion == Some("") ==> r == "eu-west-1"
  {
    match sessionRegion
    case Some(name) => if name != "" then name else "eu-west-1"
    case None => "eu-west-1"
  }

  /**
   * `deviceActivation(...)`: one call to the provisioning service with the request built
   * above; success only when the call returns both `ActivationCode` and `ActivationId`,
   * whose values are passed through with the region; any failure is the result value.
   */
  function DeviceActivationResolver(
    sessionRegion: Option<string>, iamRole: Option<string>,
    hostname: string, fleetName: string, fleetId: string, deviceUiPassword: string, deviceType: string,
    now: DateTime, createActivation: CreateActivationRequest -> CallResult): (r: ActivationResult)
    ensures var call := createActivation(BuildRequest(hostname, fleetName, fleetId, deviceUiPassword, deviceType, now, iamRole));
      && (r.Activated? <==> call.Returned? && "ActivationCode" in call.response && "ActivationId" in call.response)
      && (r.Activated? ==> r.data == ActivationData(
            Region(sessionRegion), call.response["ActivationCode"], call.response["ActivationId"]))
      && (call.Raised? ==> r == Failed(ProvisioningFailure(call.error)))
      && (call.Returned? && "ActivationCode" !in call.response ==> r == Failed(KeyError("ActivationCode")))
      && ((call.Returned? && "ActivationCode" in call.response && "ActivationId" !in call.response)
          ==> r == Failed(KeyError("ActivationId")))
  {
    var request := BuildRequest(hostname, fleetName, fleetId, deviceUiPassword, deviceType, now, iamRole);
    match createActivation(request)
    case Raised(error) => Failed(ProvisioningFailure(error))
    case Returned(response) =>
      if "ActivationCode" !in response then Failed(KeyError("ActivationCode"))
      else if "ActivationId" !in response then Failed(KeyError("ActivationId"))
      else Activated(ActivationData(Region(sessionRegion), response["ActivationCode"], response["ActivationId"]))
  }
}
