/** The special-purpose registers of the PowerPC assembler (u-boot/include/bedbug/tables.h and regs.h). */
module SpecialRegisters {

  import opened BitVectors

  /** `struct spr_info`. */
  datatype SprInfo = SprInfo(name: string, val: Word)

  /** An entry whose name begins with a capital letter. */
  type CapitalInfo = s: SprInfo | |s.name| > 0 && 'A' <= s.name[0] <= 'Z' witness SprInfo("XER", 1)

  const SPRS_0: seq<CapitalInfo> := [
    SprInfo("XER", 1), SprInfo("LR", 8), SprInfo("CTR", 9), SprInfo("DSISR", 18), SprInfo("DAR", 19),
    SprInfo("DEC", 22), SprInfo("SRR0", 26), SprInfo("SRR1", 27), SprInfo("EIE", 80), SprInfo("EID", 81),
    SprInfo("CMPA", 144), SprInfo("CMPB", 145), SprInfo("CMPC", 146), SprInfo("CMPD", 147)]

  const SPRS_14: seq<CapitalInfo> := [
    SprInfo("ICR", 148), SprInfo("DER", 149), SprInfo("COUNTA", 150), SprInfo("COUNTB", 151),
    SprInfo("CMPE", 152), SprInfo("CMPF", 153), SprInfo("CMPG", 154), SprInfo("CMPH", 155),
    SprInfo("LCTRL1", 156), SprInfo("LCTRL2", 157), SprInfo("ICTRL", 158), SprInfo("BAR", 159),
    SprInfo("USPRG0", 256), SprInfo("SPRG4_RO", 260)]

  const SPRS_28: seq<CapitalInfo> := [
    SprInfo("SPRG5_RO", 261), SprInfo("SPRG6_RO", 262), SprInfo("SPRG7_RO", 263), SprInfo("SPRG0", 272),
    SprInfo("SPRG1", 273), SprInfo("SPRG2", 274), SprInfo("SPRG3", 275), SprInfo("SPRG4", 276),
    SprInfo("SPRG5", 277), SprInfo("SPRG6", 278), SprInfo("SPRG7", 279), SprInfo("EAR", 282),
    SprInfo("TBL", 284), SprInfo("TBU", 285)]

  const SPRS_42: seq<CapitalInfo> := [
    SprInfo("IC_CST", 560), SprInfo("IC_ADR", 561), SprInfo("IC_DAT", 562), SprInfo("DC_CST", 568),
    SprInfo("DC_ADR", 569), SprInfo("DC_DAT", 570), SprInfo("DPDR", 630), SprInfo("IMMR", 638),
    SprInfo("MI_CTR", 784), SprInfo("MI_AP", 786), SprInfo("MI_EPN", 787), SprInfo("MI_TWC", 789),
    SprInfo("MI_RPN", 790), SprInfo("MD_CTR", 792)]

  const SPRS_56: seq<CapitalInfo> := [
    SprInfo("M_CASID", 793), SprInfo("MD_AP", 794), SprInfo("MD_EPN", 795), SprInfo("M_TWB", 796),
    SprInfo("MD_TWC", 797), SprInfo("MD_RPN", 798), SprInfo("M_TW", 799), SprInfo("MI_DBCAM", 816),
    SprInfo("MI_DBRAM0", 817), SprInfo("MI_DBRAM1", 818), SprInfo("MD_DBCAM", 824), SprInfo("MD_DBRAM0", 825),
    SprInfo("MD_DBRAM1", 826), SprInfo("ZPR", 944)]

  const SPRS_70: seq<CapitalInfo> := [
    SprInfo("PID", 945), SprInfo("CCR0", 947), SprInfo("IAC3", 948), SprInfo("IAC4", 949),
    SprInfo("DVC1", 950), SprInfo("DVC2", 951), SprInfo("SGR", 953), SprInfo("DCWR", 954),
    SprInfo("SLER", 955), SprInfo("SU0R", 956), SprInfo("DBCR1", 957), SprInfo("ICDBDR", 979),
    SprInfo("ESR", 980), SprInfo("DEAR", 981)]

  const SPRS_84: seq<CapitalInfo> := [
    SprInfo("EVPR", 982), SprInfo("TSR", 984), SprInfo("TCR", 986), SprInfo("PIT", 987), SprInfo("SRR2", 990),
    SprInfo("SRR3", 991), SprInfo("DBSR", 1008), SprInfo("DBCR0", 1010), SprInfo("IAC1", 1012),
    SprInfo("IAC2", 1013), SprInfo("DAC1", 1014), SprInfo("DAC2", 1015), SprInfo("DCCR", 1018),
    SprInfo("ICCR", 1019)]

  /** `spr_map`. */
  const SPRS: seq<CapitalInfo> := SPRS_0 + SPRS_14 + SPRS_28 + SPRS_42 + SPRS_56 + SPRS_70 + SPRS_84

  predicate HasCapital(name: string) { exists k :: 0 <= k < |name| && 'A' <= name[k] <= 'Z' }

  /** Every register of the table is spelled with a capital. */
  lemma AllCapitals()
    ensures forall i :: 0 <= i < |SPRS| ==> HasCapital(SPRS[i].name)
  {
    hide SPRS_0, SPRS_14, SPRS_28, SPRS_42, SPRS_56, SPRS_70, SPRS_84;
    forall i | 0 <= i < |SPRS| ensures HasCapital(SPRS[i].name) { assert 'A' <= SPRS[i].name[0] <= 'Z'; }
  }
}
