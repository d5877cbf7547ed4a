/** The fixed vocabularies of a guest scan's output and the sanitized
    projection that is stored and later shown. */
module GuestOutput {
  import opened Basics

  datatype Check =
    | DnsAaaaPresent
    | DnsDnssec
    | DnsCaa
    | MailSpf
    | MailDmarc
    | MailMtaSts
    | MailTlsRpt
    | TlsCertificate
    | HttpHsts
    | HttpCsp
    | HttpXContentTypeOptions
    | HttpFrameProtection
    | HttpReferrerPolicy
    | HttpPermissionsPolicy
    | HttpProtocol
    | InfraRpki
    | SecurityTxt

  datatype Group =
    | TargetResolution
    | DnsDomainPosture
    | TlsCertificatePosture
    | HttpSecurityPosture
    | MailSecurityPosture
    | PublicInfrastructure
    | RdapEnrichment
    | CtEnrichment

  datatype Outcome = Pass | Attention | OutcomeUnknown | OutcomeNotApplicable

  datatype Execution = ExecSuccess | ExecFailed | ExecTimedOut | ExecCancelled | ExecSuperseded

  datatype Completeness = Complete | Partial | NotApplicable | Unknown

  datatype Observation = Observation(check: Check, outcome: Outcome)

  datatype Coverage = Coverage(group: Group, execution: Execution, completeness: Completeness)

  datatype Projection = Projection(
    host: Host,
    posture: seq<Observation>,
    riskCount: int,
    coverage: seq<Coverage>,
    warningCount: int,
    durationMs: int,
    requestCount: int)

  /** Position of a check's wire name in code-unit order ("DNS_AAAA_PRESENT" first). */
  function CheckRank(c: Check): nat {
    match c
    case DnsAaaaPresent => 0
    case DnsCaa => 1
    case DnsDnssec => 2
    case HttpCsp => 3
    case HttpFrameProtection => 4
    case HttpHsts => 5
    case HttpPermissionsPolicy => 6
    case HttpProtocol => 7
    case HttpReferrerPolicy => 8
    case HttpXContentTypeOptions => 9
    case InfraRpki => 10
    case MailDmarc => 11
    case MailMtaSts => 12
    case MailSpf => 13
    case MailTlsRpt => 14
    case SecurityTxt => 15
    case TlsCertificate => 16
  }

  /** Position of a coverage group's wire name in code-unit order. */
  function GroupRank(g: Group): nat {
    match g
    case CtEnrichment => 0
    case DnsDomainPosture => 1
    case HttpSecurityPosture => 2
    case MailSecurityPosture => 3
    case PublicInfrastructure => 4
    case RdapEnrichment => 5
    case TargetResolution => 6
    case TlsCertificatePosture => 7
  }
}
