/**
 Return codes, call numbers and device constants of the API (include/api_public.h).
 */
module ApiPublic {

  const API_EINVAL := 1
  const API_ENODEV := 2
  const API_ENOMEM := 3
  const API_EBUSY := 4
  const API_EIO := 5

  const API_RSVD := 0
  const API_MAXCALL := 17

  const MR_ATTR_DRAM := 2

  const DEV_TYP_NET: bv32 := 0x0001
  const DEV_TYP_STOR: bv32 := 0x0002
  const DT_STOR_IDE: bv32 := 0x0010
  const DT_STOR_SCSI: bv32 := 0x0020
  const DT_STOR_USB: bv32 := 0x0040
  const DT_STOR_MMC: bv32 := 0x0080
  const DT_STOR_SATA: bv32 := 0x0100

  const DEV_STA_CLOSED := 0
  const DEV_STA_OPEN := 1

  datatype Option<+T> = None | Some(value: T)

  /** The numbers of the header. */
  lemma HeaderNumbers()
    ensures API_EINVAL == 1 && API_ENODEV == 2 && API_ENOMEM == 3 && API_EBUSY == 4 && API_EIO == 5
    ensures API_RSVD == 0 && API_MAXCALL == 17 && MR_ATTR_DRAM == 2
    ensures DEV_TYP_NET == 0x0001 && DEV_TYP_STOR == 0x0002
    ensures DT_STOR_IDE == 0x0010 && DT_STOR_SCSI == 0x0020 && DT_STOR_USB == 0x0040
    ensures DT_STOR_MMC == 0x0080 && DT_STOR_SATA == 0x0100
    ensures DEV_STA_CLOSED == 0 && DEV_STA_OPEN == 1
  {
  }
}
