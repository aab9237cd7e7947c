/** lib/QueryType.hpp and lib/ResultCode.hpp. */
module QueryTypes {
  import opened Bytes

  datatype QueryType = Unknown(value: u16) | A | NS | CNAME | MX | AAAA

  function FromNumber(num: u16): QueryType {
    match num
    case 1 => A
    case 2 => NS
    case 5 => CNAME
    case 15 => MX
    case 28 => AAAA
    case _ => Unknown(num)
  }

  function ToNumber(qtype: QueryType): u16 {
    match qtype
    case A => 1
    case NS => 2
    case CNAME => 5
    case MX => 15
    case AAAA => 28
    case Unknown(value) => value
  }

  /** An `Unknown` carrying the number of a known type is a second spelling of that type. */
  predicate CanonicalType(qtype: QueryType) {
    qtype.Unknown? ==> qtype.value !in {1, 2, 5, 15, 28}
  }

  lemma TypeRoundTrip(qtype: QueryType, num: u16)
    ensures ToNumber(FromNumber(num)) == num
    ensures FromNumber(ToNumber(qtype)) == qtype <==> CanonicalType(qtype)
  {
  }

  /** The numbers of section 3.2.2 of RFC 1035, and of section 2.1 of RFC 3596. */
  lemma TypeNumbers(num: u16)
    ensures ToNumber(A) == 1 && ToNumber(NS) == 2 && ToNumber(CNAME) == 5 && ToNumber(MX) == 15 && ToNumber(AAAA) == 28
    ensures FromNumber(num).Unknown? <==> num !in {1, 2, 5, 15, 28}
    ensures FromNumber(num).Unknown? ==> FromNumber(num).value == num
  {
  }

  datatype ResultCode = NOERROR | FORMERR | SERVFAIL | NXDOMAIN | NOTIMP | REFUSED

  function ResultCodeFromNum(num: byte): ResultCode {
    match num
    case 1 => FORMERR
    case 2 => SERVFAIL
    case 3 => NXDOMAIN
    case 4 => NOTIMP
    case 5 => REFUSED
    case _ => NOERROR
  }

  function ResultCodeToNum(code: ResultCode): (num: byte)
    ensures num < 6 && ResultCodeFromNum(num) == code
  {
    match code
    case NOERROR => 0
    case FORMERR => 1
    case SERVFAIL => 2
    case NXDOMAIN => 3
    case NOTIMP => 4
    case REFUSED => 5
  }

  /** The codes of section 4.1.1 of RFC 1035; a number without a code reads as no error. */
  lemma CodeNumbers(num: byte)
    ensures [NOERROR, FORMERR, SERVFAIL, NXDOMAIN, NOTIMP, REFUSED] ==
      [ResultCodeFromNum(0), ResultCodeFromNum(1), ResultCodeFromNum(2), ResultCodeFromNum(3), ResultCodeFromNum(4),
       ResultCodeFromNum(5)]
    ensures num > 5 ==> ResultCodeFromNum(num) == NOERROR
  {
  }
}
