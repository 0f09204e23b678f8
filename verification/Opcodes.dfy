/** The opcodes of src/cmd/5l/5.out.h that the compiler passes look at, and the condition of an
instruction that always runs. */
module Opcodes {

  const AXXX := 0
  const AAND := 1
  const AEOR := 2
  const ASUB := 3
  const ARSB := 4
  const AADD := 5
  const AADC := 6
  const ASBC := 7
  const ARSC := 8
  const ATST := 9
  const ATEQ := 10
  const ACMP := 11
  const ACMN := 12
  const AORR := 13
  const ABIC := 14
  const AMVN := 15
  const AB := 16
  const ABL := 17
  const ABEQ := 18
  const ABNE := 19
  const ABCS := 20
  const ABHS := 21
  const ABCC := 22
  const ABLO := 23
  const ABMI := 24
  const ABPL := 25
  const ABVS := 26
  const ABVC := 27
  const ABHI := 28
  const ABLS := 29
  const ABGE := 30
  const ABLT := 31
  const ABGT := 32
  const ABLE := 33
  const AMOVWD := 34
  const AMOVWF := 35
  const AMOVDW := 36
  const AMOVFW := 37
  const AMOVFD := 38
  const AMOVDF := 39
  const AMOVF := 40
  const AMOVD := 41
  const ACMPF := 42
  const ACMPD := 43
  const AADDF := 44
  const AADDD := 45
  const ASUBF := 46
  const ASUBD := 47
  const AMULF := 48
  const AMULD := 49
  const ADIVF := 50
  const ADIVD := 51
  const ASRL := 52
  const ASRA := 53
  const ASLL := 54
  const AMULU := 55
  const ADIVU := 56
  const AMUL := 57
  const ADIV := 58
  const AMOD := 59
  const AMODU := 60
  const AMOVW := 65
  const ANOP := 69
  const ARFE := 70
  const ASWI := 71
  const AMULA := 72
  const ADATA := 73
  const AGLOBL := 74
  const AGOK := 75
  const AHISTORY := 76
  const ANAME := 77
  const ARET := 78
  const ATEXT := 79
  const AWORD := 80
  const ADYNT := 81
  const AINIT := 82
  const ABCASE := 83
  const ACASE := 84
  const AMULL := 86
  const AMULAL := 87
  const AMULLU := 88
  const AMULALU := 89
  const ASIGNAME := 93

  const AL := 14
}
